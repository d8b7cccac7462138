/** What the server's index entries mean, and what no step of an upload may change: the data of
    Baseline/src/server and Baseline/src/reduction on values. */
module ServerState {
  import opened Basics
  import opened ReadCache
  import opened StorageCore

  /** What CompressOneChunk returns: whether the chunk could be compressed, and the bytes to store. */
  datatype Packed = Packed(ok: bool, bytes: Bytes)

  /** Hashing, features, compression and delta coding are foreign code. */
  datatype Env = Env(hash: Bytes -> nat, features: Bytes -> seq<nat>, compress: Bytes -> Packed,
                     decompress: Bytes -> Bytes, deltaEncode: (Bytes, Bytes) -> Bytes,
                         deltaDecode: (Bytes, Bytes) -> Bytes)

  /** Their laws: the inverses undo, a chunk that cannot be compressed is copied, and nothing outgrows
      a container or takes no bytes at all. */
  ghost predicate Lawful(env: Env) {
    && (forall x :: 0 < |x| <= MAX_CONTAINER_SIZE ==> PacksWell(env, x))
    && forall b, x :: 0 < |x| <= MAX_CONTAINER_SIZE ==> DeltaWell(env, b, x)
  }

  predicate PacksWell(env: Env, x: Bytes) {
    var p := env.compress(x);
    0 < |p.bytes| <= MAX_CONTAINER_SIZE && if p.ok then env.decompress(p.bytes) == x else p.bytes == x
  }

  predicate DeltaWell(env: Env, b: Bytes, x: Bytes) {
    0 < |env.deltaEncode(b, x)| <= MAX_CONTAINER_SIZE && env.deltaDecode(b, env.deltaEncode(b, x)) == x
  }

  /** The laws can be met: nothing is compressed and a delta is the chunk itself. */
  lemma LawsCanBeMet()
    ensures exists env :: Lawful(env)
  {
    var env := Env(x => |x|, x => [], x => Packed(false, x), x => x, (b, x) => x, (b, d) => d);
    assert Lawful(env);
  }

  predicate IsBase(stat: Stat) {
    stat.CompBase? || stat.UncompBase?
  }

  /** The stored bytes, decompressed if need be. */
  function Unpack(env: Env, stat: Stat, raw: Bytes): Bytes {
    if stat.CompBase? || stat.CompDelta? then env.decompress(raw) else raw
  }

  /** The storage, the fingerprint index, the fingerprints whose chunks are still on their way to it,
      and the chunks of all fingerprints. */
  datatype World = World(disk: map<nat, Bytes>, id: nat, cur: Bytes, index: map<nat, Addr>, line: seq<nat>,
                         known: map<nat, Bytes>)
  {
    /** The bytes stored at an address, of which there are some. */
    function Find(a: Addr): Found {
      if a.len == 0 then Missing else Lookup(disk, id, cur, a)
    }
  }

  /** fp names a chunk stored whole. */
  predicate BaseReady(env: Env, w: World, fp: nat) {
    && fp in w.index && fp in w.known && fp !in w.line && IsBase(w.index[fp].stat)
    && w.Find(w.index[fp]).Bytes? && Unpack(env, w.index[fp].stat, w.Find(w.index[fp]).value) == w.known[fp]
  }

  /** The address gives back the chunk: its bytes, or a delta of them against a chunk stored whole. */
  predicate Gives(env: Env, w: World, a: Addr, data: Bytes) {
    && w.Find(a).Bytes?
    && var x := Unpack(env, a.stat, w.Find(a).value);
       if IsBase(a.stat) then x == data
       else BaseReady(env, w, a.baseFp) && env.deltaDecode(w.known[a.baseFp], x) == data
  }

  /** Every fingerprint of the index stands for a chunk; those that are not in the line give it back. */
  predicate IndexOk(env: Env, w: World) {
    && w.index.Keys == w.known.Keys && Distinct(w.line) && (forall fp :: fp in w.line ==> fp in w.index)
    && forall fp | fp in w.index :: fp !in w.line ==> Gives(env, w, w.index[fp], w.known[fp])
  }

  /** The steps of an upload: what is found stays, entries outside the line stay, chunks stay. */
  ghost predicate Grows(w: World, v: World) {
    && (forall a :: w.Find(a).Bytes? ==> v.Find(a) == w.Find(a))
    && (forall fp :: fp in w.index && fp !in w.line ==> fp in v.index && fp !in v.line && v.index[fp] == w.index[fp])
    && forall fp :: fp in w.known ==> fp in v.known && v.known[fp] == w.known[fp]
  }

  lemma BaseStays(env: Env, w: World, v: World, fp: nat)
    requires Grows(w, v) && BaseReady(env, w, fp)
    ensures BaseReady(env, v, fp) && v.index[fp] == w.index[fp] && v.known[fp] == w.known[fp]
  {
    hide Lookup;
  }

  lemma GivesStays(env: Env, w: World, v: World, a: Addr, data: Bytes)
    requires Grows(w, v) && Gives(env, w, a, data)
    ensures Gives(env, v, a, data)
  {
    hide Lookup;
    if !IsBase(a.stat) {
      BaseStays(env, w, v, a.baseFp);
    }
  }

  lemma IndexStays(env: Env, w: World, v: World)
    requires IndexOk(env, w) && Grows(w, v) && v.index.Keys == v.known.Keys && Distinct(v.line)
    requires forall fp :: fp in v.line ==> fp in v.index
    requires forall fp | fp in v.index :: fp !in v.line ==>
               (fp in w.index && fp !in w.line) || Gives(env, v, v.index[fp], v.known[fp])
    ensures IndexOk(env, v)
  {
    hide Lookup, Gives;
    forall fp | fp in v.index && fp !in v.line ensures Gives(env, v, v.index[fp], v.known[fp]) {
      if fp in w.index && fp !in w.line {
        assert Gives(env, w, w.index[fp], w.known[fp]);
        GivesStays(env, w, v, w.index[fp], w.known[fp]);
      }
    }
  }

  /** The feature index names only chunks stored whole. */
  predicate FeaturesOk(env: Env, w: World, features: map<nat, nat>) {
    forall f | f in features :: BaseReady(env, w, features[f])
  }

  /** A recipe lists the fingerprints of the chunks of a file. */
  predicate Lists(known: map<nat, Bytes>, recipe: seq<nat>, chunks: seq<Bytes>) {
    |recipe| == |chunks| && forall i :: 0 <= i < |recipe| ==> recipe[i] in known && known[recipe[i]] == chunks[i]
  }

  lemma ListsStay(w: World, v: World, recipe: seq<nat>, chunks: seq<Bytes>)
    requires Lists(w.known, recipe, chunks) && Grows(w, v)
    ensures Lists(v.known, recipe, chunks)
  {
  }

  // ----- the steps on the index -----

  /** The receiver reserves an entry: whatever its address is, the fingerprint joins the line. */
  function Reserve(w: World, fp: nat, data: Bytes, junk: Addr): World {
    w.(index := w.index[fp := junk], line := w.line + [fp], known := w.known[fp := data])
  }

  lemma ReserveOk(env: Env, w: World, fp: nat, data: Bytes, junk: Addr)
    requires IndexOk(env, w) && fp !in w.index
    ensures Grows(w, Reserve(w, fp, data, junk)) && IndexOk(env, Reserve(w, fp, data, junk))
  {
    var v := Reserve(w, fp, data, junk);
    hide Lookup, Gives;
    assert forall x :: x in v.line <==> x in w.line || x == fp;
    IndexStays(env, w, v);
  }

  /** The storage changes, the index does not. */
  lemma StoreOk(env: Env, w: World, v: World)
    requires IndexOk(env, w) && v == w.(disk := v.disk, id := v.id, cur := v.cur)
    requires Keeps(w.disk, w.id, w.cur, v.disk, v.id, v.cur)
    ensures Grows(w, v) && IndexOk(env, v)
  {
    hide Lookup, Gives;
    IndexStays(env, w, v);
  }

  /** A new session begins: the container of the last one is saved, or empty. */
  lemma SessionOk(env: Env, w: World, uuid: nat)
    requires IndexOk(env, w) && (if w.id in w.disk then w.disk[w.id] == w.cur else w.cur == [])
    ensures Grows(w, w.(id := uuid, cur := [])) && IndexOk(env, w.(id := uuid, cur := []))
  {
    hide Gives;
    IndexStays(env, w, w.(id := uuid, cur := []));
  }

  /** The writer enters the address, and the head of the line leaves it. */
  function Enter(w: World, a: Addr): World
    requires w.line != []
  {
    w.(index := w.index[w.line[0] := a], line := w.line[1..])
  }

  lemma BaseOf(env: Env, v: World, fp: nat, a: Addr)
    requires fp in v.index && v.index[fp] == a && fp !in v.line && fp in v.known && Gives(env, v, a, v.known[fp])
    ensures IsBase(a.stat) ==> BaseReady(env, v, fp)
  {
  }

  lemma EnterGrows(w: World, a: Addr)
    requires w.line != [] && Distinct(w.line)
    ensures Grows(w, Enter(w, a)) && w.line[0] !in Enter(w, a).line && Distinct(Enter(w, a).line)
    ensures forall fp :: fp in w.line <==> fp == w.line[0] || fp in Enter(w, a).line
  {
    hide Lookup;
    var v := Enter(w, a);
    assert w.line == [w.line[0]] + v.line;
    assert forall i :: 0 <= i < |v.line| ==> v.line[i] == w.line[i + 1];
  }

  lemma EnterOk(env: Env, w: World, a: Addr)
    requires IndexOk(env, w) && w.line != [] && w.line[0] in w.known && Gives(env, w, a, w.known[w.line[0]])
    ensures Grows(w, Enter(w, a)) && IndexOk(env, Enter(w, a))
    ensures IsBase(a.stat) ==> BaseReady(env, Enter(w, a), w.line[0])
  {
    var v, fp := Enter(w, a), w.line[0];
    EnterGrows(w, a);
    assert w.line[0] in w.line;
    GivesStays(env, w, v, a, w.known[fp]);
    BaseOf(env, v, fp, a);
    hide Lookup, Gives, Grows, Distinct, BaseReady;
    IndexStays(env, w, v);
  }
}
