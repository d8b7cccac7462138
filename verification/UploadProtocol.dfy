/** The receiver and the writer of an upload as interleaved steps: ProcessChunks and ProcessRecipe of
    Baseline/src/server/data_recv_thd.cc, DetectDuplicate of Baseline/src/reduction/dedup_detect.cc and
    Run of Baseline/src/server/data_writer_thd.cc. The two threads share the fingerprint index and the
    queue; a step uses one of them at most once. */
module UploadProtocol {
  import opened Basics
  import opened ReadCache
  import opened StorageCore
  import opened ServerState

  /** WrappedChunk_t: a chunk on its way to the writer. */
  datatype Wrapped = Wrapped(fp: nat, features: seq<nat>, data: Bytes)

  /** Where the receiver is with a chunk: it has asked the index, or also reserved an entry. */
  datatype Receiver = Idle | Queried(chunk: Wrapped, unique: bool) | Reserved(item: Wrapped)

  /** Where the writer is with a chunk: popped; stored, but known to no index; in the feature index. */
  datatype Writer = Waiting | Popped(chunk: Wrapped) | Stored(item: Wrapped, addr: Addr)
                  | Featured(entry: Wrapped, at: Addr) | Exited

  /** All of the server: its storage and index, with the chunks that are on their way in the order in
      which they will be entered; the queue between the threads and its end mark; the recipe written so
      far and the part still buffered. `uploaded` and `contents` are what the clients sent. */
  datatype State = State(world: World, features: map<nat, nat>, queue: seq<Wrapped>, done: bool,
                         recv: Receiver, writer: Writer, recipe: seq<nat>, batch: seq<nat>, file: nat,
                         files: map<nat, seq<nat>>, uploaded: seq<Bytes>, contents: map<nat, seq<Bytes>>)

  function Fps(q: seq<Wrapped>): (r: seq<nat>)
    ensures |r| == |q|
  {
    seq(|q|, i requires 0 <= i < |q| => q[i].fp)
  }

  function Hand(w: Writer): seq<nat> {
    match w
    case Waiting => []
    case Popped(c) => [c.fp]
    case Stored(c, _) => [c.fp]
    case Featured(c, _) => [c.fp]
    case Exited => []
  }

  /** The chunk that was received but is not in the recipe yet. */
  function Pending(r: Receiver): seq<Bytes> {
    match r
    case Idle => []
    case Queried(c, _) => [c.data]
    case Reserved(c) => [c.data]
  }

  function Held(r: Receiver): seq<nat> {
    if r.Reserved? then [r.item.fp] else []
  }

  /** The fingerprints on their way, in the order in which they will be entered. */
  function Line(w: Writer, q: seq<Wrapped>, r: Receiver): seq<nat> {
    Hand(w) + Fps(q) + Held(r)
  }

  /** A chunk that carries the data its fingerprint stands for. */
  predicate Carries(env: Env, known: map<nat, Bytes>, c: Wrapped) {
    c.fp in known && known[c.fp] == c.data && 0 < |c.data| <= MAX_CONTAINER_SIZE && c.features == env.features(c.data)
  }

  /** The receiver's chunk is the one whose fingerprint it asked for; one it found is the same chunk,
      and one it did not find is still not there. */
  predicate ReceiverOk(env: Env, s: State) {
    match s.recv
    case Idle => true
    case Queried(c, unique) =>
      && !s.done && c.fp == env.hash(c.data) && 0 < |c.data| <= MAX_CONTAINER_SIZE && c.features == env.features(c.data)
      && if unique then c.fp !in s.world.index else c.fp in s.world.known && s.world.known[c.fp] == c.data
    case Reserved(c) => !s.done && Carries(env, s.world.known, c)
  }

  predicate WriterOk(env: Env, s: State) {
    match s.writer
    case Waiting => true
    case Popped(c) => Carries(env, s.world.known, c)
    case Stored(c, a) => Carries(env, s.world.known, c) && Gives(env, s.world, a, c.data)
    case Featured(c, a) => Carries(env, s.world.known, c) && Gives(env, s.world, a, c.data)
    case Exited => s.done && s.queue == []
  }

  /** The feature index names chunks stored whole; while the writer is between its two indexes, one of
      them may be the chunk in its hand. */
  predicate FeaturesGood(env: Env, s: State) {
    forall f | f in s.features :: FeatureGood(env, s, s.features[f])
  }

  predicate FeatureGood(env: Env, s: State, fp: nat) {
    BaseReady(env, s.world, fp) || (s.writer.Featured? && IsBase(s.writer.at.stat) && fp == s.writer.entry.fp)
  }

  predicate FilesGood(s: State) {
    && Lists(s.world.known, s.recipe + s.batch, s.uploaded) && s.files.Keys == s.contents.Keys
    && forall f | f in s.files :: Lists(s.world.known, s.files[f], s.contents[f])
  }

  predicate Fingerprints(env: Env, known: map<nat, Bytes>) {
    forall fp | fp in known :: env.hash(known[fp]) == fp
  }

  predicate Inv(env: Env, s: State) {
    && IndexOk(env, s.world) && s.world.line == Line(s.writer, s.queue, s.recv)
    && (forall i :: 0 <= i < |s.queue| ==> Carries(env, s.world.known, s.queue[i]))
    && ReceiverOk(env, s) && WriterOk(env, s) && FeaturesGood(env, s) && FilesGood(s)
    && Fingerprints(env, s.world.known)
  }

  lemma EmptyOk(env: Env, s: State)
    requires s == State(World(map[], s.world.id, [], map[], Line(Exited, [], Idle), map[]), map[], [], true, Idle,
             Exited,
                        [], [], s.file, map[], [], map[])
    ensures Inv(env, s)
  {
  }

  /** What a step keeps for every part of the state that it does not change. */
  lemma PartsStay(env: Env, s: State, w: World)
    requires Inv(env, s) && Grows(s.world, w)
    ensures forall i :: 0 <= i < |s.queue| ==> Carries(env, w.known, s.queue[i])
    ensures Lists(w.known, s.recipe + s.batch, s.uploaded)
    ensures forall f | f in s.files :: Lists(w.known, s.files[f], s.contents[f])
    ensures forall f | f in s.features :: BaseReady(env, w, s.features[f])
                                          || (s.writer.Featured? && IsBase(s.writer.at.stat) &&
                                              s.features[f] == s.writer.entry.fp)
  {
    hide Gives, BaseReady, Lookup;
    ListsStay(s.world, w, s.recipe + s.batch, s.uploaded);
    forall f | f in s.files ensures Lists(w.known, s.files[f], s.contents[f]) {
      ListsStay(s.world, w, s.files[f], s.contents[f]);
    }
    forall f | f in s.features && BaseReady(env, s.world, s.features[f]) ensures BaseReady(env, w, s.features[f]) {
      BaseStays(env, s.world, w, s.features[f]);
    }
    assert forall f | f in s.features :: FeatureGood(env, s, s.features[f]);
  }

  // ----- the receiver -----

  /** The receiver hashes a chunk and asks the index for it. */
  function Query(env: Env, s: State, data: Bytes): State {
    var fp := env.hash(data);
    s.(recv := Queried(Wrapped(fp, env.features(data), data), fp !in s.world.index))
  }

  /** The fingerprint does not collide with that of another chunk. */
  predicate NoCollision(env: Env, known: map<nat, Bytes>, data: Bytes) {
    env.hash(data) in known ==> known[env.hash(data)] == data
  }

  lemma QueryOk(env: Env, s: State, data: Bytes)
    requires Inv(env, s) && s.recv.Idle? && !s.done && 0 < |data| <= MAX_CONTAINER_SIZE
    requires NoCollision(env, s.world.known, data)
    ensures Inv(env, Query(env, s, data))
  {
    hide Gives, BaseReady, Lookup, Lists, Distinct;
  }

  /** A chunk that was not found gets an entry with whatever address is in the variable. */
  function ReserveStep(s: State, junk: Addr): State
    requires s.recv.Queried?
  {
    s.(recv := Reserved(s.recv.chunk), world := Reserve(s.world, s.recv.chunk.fp, s.recv.chunk.data, junk))
  }

  lemma ReserveStepOk(env: Env, s: State, junk: Addr)
    requires Inv(env, s) && s.recv.Queried? && s.recv.unique
    ensures Inv(env, ReserveStep(s, junk))
  {
    var c, t := s.recv.chunk, ReserveStep(s, junk);
    ReserveOk(env, s.world, c.fp, c.data, junk);
    PartsStay(env, s, t.world);
    WriterStays(env, s, t.world);
    assert Line(s.writer, s.queue, s.recv) + [c.fp] == Line(t.writer, t.queue, t.recv);
    hide Gives, BaseReady, Lookup, Lists, Distinct, Grows;
  }

  lemma WriterStays(env: Env, s: State, w: World)
    requires Inv(env, s) && Grows(s.world, w)
    ensures WriterOk(env, s.(world := w))
  {
    hide BaseReady, Lookup, Lists, Distinct;
    match s.writer
    case Stored(c, a) => GivesStays(env, s.world, w, a, c.data);
    case Featured(c, a) => GivesStays(env, s.world, w, a, c.data);
    case _ =>
  }

  /** ProcessRecipe: the recipe is written in batches. */
  function Note(s: State, fp: nat, data: Bytes, batchSize: nat): State
    requires batchSize > 0
  {
    var b := s.batch + [fp];
    if |b| % batchSize == 0 then s.(recipe := s.recipe + b, batch := [], uploaded := s.uploaded + [data])
    else s.(batch := b, uploaded := s.uploaded + [data])
  }

  /** The fingerprint joins the recipe, and a unique chunk the queue. */
  function Deliver(s: State, batchSize: nat): State
    requires !s.recv.Idle? && batchSize > 0
  {
    match s.recv
    case Queried(c, _) => Note(s, c.fp, c.data, batchSize).(recv := Idle)
    case Reserved(c) => Note(s, c.fp, c.data, batchSize).(recv := Idle, queue := s.queue + [c])
  }

  lemma NoteLists(s: State, fp: nat, data: Bytes, batchSize: nat)
    requires FilesGood(s) && fp in s.world.known && s.world.known[fp] == data && batchSize > 0
    ensures FilesGood(Note(s, fp, data, batchSize))
  {
    var t := Note(s, fp, data, batchSize);
    assert t.recipe + t.batch == s.recipe + s.batch + [fp];
  }

  lemma DeliverOk(env: Env, s: State, batchSize: nat)
    requires Inv(env, s) && batchSize > 0
    requires s.recv.Reserved? || (s.recv.Queried? && !s.recv.unique)
    ensures Inv(env, Deliver(s, batchSize))
  {
    hide Gives, BaseReady, Lookup, Lists, Distinct, IndexOk, Line, Note, FilesGood, Fingerprints;
    var c := if s.recv.Queried? then s.recv.chunk else s.recv.item;
    NoteLists(s, c.fp, c.data, batchSize);
    NoteRest(s, c.fp, c.data, batchSize);
    var n, t := Note(s, c.fp, c.data, batchSize), Deliver(s, batchSize);
    DeliverLine(s.writer, s.queue, c);
    FilesAlone(n, t);
    FeaturesAlone(env, s, t);
  }

  lemma NoteRest(s: State, fp: nat, data: Bytes, batchSize: nat)
    requires batchSize > 0
    ensures var n := Note(s, fp, data, batchSize);
            n == s.(recipe := n.recipe, batch := n.batch, uploaded := n.uploaded)
  {
  }

  lemma DeliverLine(w: Writer, q: seq<Wrapped>, c: Wrapped)
    ensures Line(w, q, Reserved(c)) == Line(w, q + [c], Idle)
    ensures forall unique :: Line(w, q, Queried(c, unique)) == Line(w, q, Idle)
  {
    assert Fps(q + [c]) == Fps(q) + [c.fp];
  }

  lemma FilesAlone(s: State, t: State)
    requires FilesGood(s) && t.world == s.world && t.recipe == s.recipe && t.batch == s.batch
    requires t.uploaded == s.uploaded && t.files == s.files && t.contents == s.contents
    ensures FilesGood(t)
  {
  }

  lemma FeaturesAlone(env: Env, s: State, t: State)
    requires FeaturesGood(env, s) && t.world == s.world && t.features == s.features && t.writer == s.writer
    ensures FeaturesGood(env, t)
  {
    forall f | f in t.features ensures FeatureGood(env, t, t.features[f]) {
      assert FeatureGood(env, s, s.features[f]);
    }
  }

  /** ProcessRecipeEnd: the rest of the recipe is written, and the queue marked. */
  function End(s: State): State {
    var r := s.recipe + s.batch;
    s.(recipe := r, batch := [], done := true, files := s.files[s.file := r],
        contents := s.contents[s.file := s.uploaded])
  }

  lemma EndOk(env: Env, s: State)
    requires Inv(env, s) && s.recv.Idle? && !s.done
    ensures Inv(env, End(s))
  {
    assert End(s).recipe + [] == s.recipe + s.batch;
    hide Gives, BaseReady, Lookup, Lists, Distinct, IndexOk;
  }

  // ----- the writer -----

  function Pop(s: State): State
    requires s.queue != []
  {
    s.(writer := Popped(s.queue[0]), queue := s.queue[1..])
  }

  lemma PopOk(env: Env, s: State)
    requires Inv(env, s) && s.writer.Waiting? && s.queue != []
    ensures Inv(env, Pop(s))
  {
    hide Gives, BaseReady, Lookup, Lists, Distinct, IndexOk, FilesGood, Fingerprints, Line;
    var t := Pop(s);
    PopLine(s.queue, s.recv);
    FilesAlone(s, t);
    forall f | f in t.features ensures FeatureGood(env, t, t.features[f]) {
      assert FeatureGood(env, s, s.features[f]);
    }
  }

  lemma PopLine(q: seq<Wrapped>, r: Receiver)
    requires q != []
    ensures Line(Waiting, q, r) == Line(Popped(q[0]), q[1..], r)
  {
    assert Fps(q) == [q[0].fp] + Fps(q[1..]);
  }

  /** The chunk is stored, whole or as a delta: the storage and the writer's place change. */
  function Store(s: State, w: World, a: Addr): State
    requires s.writer.Popped?
  {
    s.(world := w, writer := Stored(s.writer.chunk, a))
  }

  lemma StoreStepOk(env: Env, s: State, w: World, a: Addr)
    requires Inv(env, s) && s.writer.Popped? && w == s.world.(disk := w.disk, id := w.id, cur := w.cur)
    requires Keeps(s.world.disk, s.world.id, s.world.cur, w.disk, w.id, w.cur) && Gives(env, w, a, s.writer.chunk.data)
    ensures Inv(env, Store(s, w, a))
  {
    StoreOk(env, s.world, w);
    PartsStay(env, s, w);
    hide Gives, BaseReady, Lookup, Lists, Distinct, Grows;
  }

  /** UpdateFeatureIndex: all features of a chunk stored whole lead to it. */
  function Enroll(features: map<nat, nat>, fs: seq<nat>, fp: nat): map<nat, nat> {
    if fs == [] then features else Enroll(features, fs[..|fs| - 1], fp)[fs[|fs| - 1] := fp]
  }

  /** Every feature of the list leads to the chunk, every other one where it led before. */
  lemma {:induction false} EnrollEnters(features: map<nat, nat>, fs: seq<nat>, fp: nat)
    ensures var m := Enroll(features, fs, fp);
            && (forall f :: f in fs ==> f in m && m[f] == fp)
            && (forall f :: f !in fs ==> (f in m <==> f in features) && (f in m ==> m[f] == features[f]))
  {
    if fs != [] {
      var n := |fs| - 1;
      EnrollEnters(features, fs[..n], fp);
      assert forall f :: f in fs <==> f in fs[..n] || f == fs[n];
    }
  }

  lemma {:induction false} EnrollValues(features: map<nat, nat>, fs: seq<nat>, fp: nat)
    ensures forall f | f in Enroll(features, fs, fp) ::
              Enroll(features, fs, fp)[f] == fp || (f in features && Enroll(features, fs, fp)[f] == features[f])
  {
    if fs != [] {
      EnrollValues(features, fs[..|fs| - 1], fp);
    }
  }

  function Feature(s: State): State
    requires s.writer.Stored?
  {
    var c, a := s.writer.item, s.writer.addr;
    s.(writer := Featured(c, a),
        features := if IsBase(a.stat) then Enroll(s.features, c.features, c.fp) else s.features)
  }

  lemma FeatureOk(env: Env, s: State)
    requires Inv(env, s) && s.writer.Stored?
    ensures Inv(env, Feature(s))
  {
    hide Gives, BaseReady, Lookup, Lists, Distinct, IndexOk, Enroll, FilesGood, Fingerprints;
    var t := Feature(s);
    EnrollValues(s.features, s.writer.item.features, s.writer.item.fp);
    FilesAlone(s, t);
    forall f | f in t.features ensures FeatureGood(env, t, t.features[f]) {
      if f in s.features && t.features[f] == s.features[f] {
        assert FeatureGood(env, s, s.features[f]);
      }
    }
  }

  /** The address goes into the fingerprint index. */
  function Index(s: State): State
    requires s.writer.Featured? && s.world.line != []
  {
    s.(writer := Waiting, world := Enter(s.world, s.writer.at))
  }

  lemma HeadOfLine(env: Env, s: State)
    requires Inv(env, s) && !s.writer.Waiting? && !s.writer.Exited?
    ensures s.world.line != [] && Hand(s.writer) == [s.world.line[0]]
    ensures s.world.line[1..] == Fps(s.queue) + Held(s.recv)
    ensures s.writer.Featured? ==> s.writer.entry.fp == s.world.line[0]
  {
    hide Gives, BaseReady, Lookup, Lists, Distinct, IndexOk;
    assert s.world.line == Hand(s.writer) + Fps(s.queue) + Held(s.recv);
  }

  lemma IndexStepOk(env: Env, s: State)
    requires Inv(env, s) && s.writer.Featured?
    ensures s.world.line != [] && Inv(env, Index(s))
  {
    HeadOfLine(env, s);
    var t := Index(s);
    EnterOk(env, s.world, s.writer.at);
    PartsStay(env, s, t.world);
    assert [] + Fps(s.queue) + Held(s.recv) == Fps(s.queue) + Held(s.recv);
    hide Gives, BaseReady, Lookup, Lists, Distinct, Grows;
    assert t.world.index.Keys == s.world.index.Keys;
  }

  /** The writer leaves its loop once the queue is marked and empty, and saves the last container. */
  function Leave(s: State, w: World): State {
    s.(writer := Exited, world := w)
  }

  lemma LeaveOk(env: Env, s: State, w: World)
    requires Inv(env, s) && s.writer.Waiting? && s.done && s.queue == []
    requires w == s.world.(disk := w.disk, id := w.id, cur := w.cur)
    requires Keeps(s.world.disk, s.world.id, s.world.cur, w.disk, w.id, w.cur)
    ensures Inv(env, Leave(s, w))
  {
    StoreOk(env, s.world, w);
    PartsStay(env, s, w);
    hide Gives, BaseReady, Lookup, Lists, Distinct, Grows;
  }

  /** Once the writer has left, nothing is on its way: every fingerprint ever uploaded has a good entry. */
  lemma Drained(env: Env, s: State)
    requires Inv(env, s) && s.writer.Exited?
    ensures s.world.line == [] && s.recv.Idle?
  {
    hide Gives, BaseReady, Lookup, Lists, Distinct, IndexOk;
    assert [] + Fps([]) + [] == [];
  }

  /** The next upload starts with an empty queue and a container of its own. */
  function Next(s: State, uuid: nat, file: nat): State {
    s.(world := s.world.(id := uuid, cur := []), queue := [], done := false, recv := Idle, writer := Waiting,
       recipe := [], batch := [], file := file, uploaded := [])
  }

  lemma NextOk(env: Env, s: State, uuid: nat, file: nat)
    requires Inv(env, s) && s.writer.Exited?
    requires if s.world.id in s.world.disk then s.world.disk[s.world.id] == s.world.cur else s.world.cur == []
    ensures Inv(env, Next(s, uuid, file))
  {
    Drained(env, s);
    SessionOk(env, s.world, uuid);
    PartsStay(env, s, Next(s, uuid, file).world);
    assert [] + Fps([]) + [] == [];
    hide Gives, BaseReady, Lookup, Distinct, Grows, IndexOk;
  }

  // ----- all runs -----

  /** The storage may change under the rest of the state, but keeps what can be found in it. */
  ghost predicate StorageKeeps(w: World, v: World) {
    v == w.(disk := v.disk, id := v.id, cur := v.cur) && Keeps(w.disk, w.id, w.cur, v.disk, v.id, v.cur)
  }

  predicate Sent(env: Env, s: State, data: Bytes) {
    0 < |data| <= MAX_CONTAINER_SIZE && NoCollision(env, s.world.known, data)
  }

  /** A step of the receiver, with any chunk a client may send. */
  ghost predicate ReceiverStep(env: Env, s: State, t: State, batchSize: nat)
    requires batchSize > 0
  {
    || (s.recv.Idle? && !s.done && exists data: Bytes :: Sent(env, s, data) && t == Query(env, s, data))
    || (s.recv.Queried? && s.recv.unique && exists junk :: t == ReserveStep(s, junk))
    || ((s.recv.Reserved? || (s.recv.Queried? && !s.recv.unique)) && t == Deliver(s, batchSize))
    || (s.recv.Idle? && !s.done && t == End(s))
  }

  /** A step of the writer. */
  ghost predicate WriterStep(env: Env, s: State, t: State) {
    || (s.writer.Waiting? && s.queue != [] && t == Pop(s))
    || (s.writer.Popped? && StorageKeeps(s.world, t.world)
        && exists a :: Gives(env, t.world, a, s.writer.chunk.data) && t == Store(s, t.world, a))
    || (s.writer.Stored? && t == Feature(s))
    || (s.writer.Featured? && s.world.line != [] && t == Index(s))
    || (s.writer.Waiting? && s.done && s.queue == [] && StorageKeeps(s.world, t.world) && t == Leave(s, t.world))
  }

  /** After an upload the next one may begin. */
  ghost predicate NextUpload(s: State, t: State) {
    && s.writer.Exited? &&
        (if s.world.id in s.world.disk then s.world.disk[s.world.id] == s.world.cur else s.world.cur == [])
    && t == Next(s, t.world.id, t.file)
  }

  ghost predicate Step(env: Env, s: State, t: State, batchSize: nat)
    requires batchSize > 0
  {
    ReceiverStep(env, s, t, batchSize) || WriterStep(env, s, t) || NextUpload(s, t)
  }

  lemma StepKeeps(env: Env, s: State, t: State, batchSize: nat)
    requires batchSize > 0 && Inv(env, s) && Step(env, s, t, batchSize)
    ensures Inv(env, t)
  {
    hide Inv, Query, ReserveStep, Deliver, End, Pop, Store, Feature, Index, Leave, Next, Gives, Keeps;
    if ReceiverStep(env, s, t, batchSize) {
      if s.recv.Queried? && s.recv.unique {
        var junk :| t == ReserveStep(s, junk);
        ReserveStepOk(env, s, junk);
      } else if !s.recv.Idle? {
        DeliverOk(env, s, batchSize);
      } else if t == End(s) {
        EndOk(env, s);
      } else {
        var data: Bytes :| Sent(env, s, data) && t == Query(env, s, data);
        QueryOk(env, s, data);
      }
    } else if NextUpload(s, t) {
      NextOk(env, s, t.world.id, t.file);
    } else if s.writer.Popped? {
      var a :| Gives(env, t.world, a, s.writer.chunk.data) && t == Store(s, t.world, a);
      StoreStepOk(env, s, t.world, a);
    } else if s.writer.Stored? {
      FeatureOk(env, s);
    } else if s.writer.Featured? {
      IndexStepOk(env, s);
    } else if s.queue != [] {
      PopOk(env, s);
    } else {
      LeaveOk(env, s, t.world);
    }
  }

  ghost predicate Run(env: Env, trace: seq<State>, batchSize: nat)
    requires batchSize > 0
  {
    && trace != [] && Inv(env, trace[0])
    && forall i :: 0 <= i < |trace| - 1 ==> Linked(env, trace, i, batchSize)
  }

  ghost predicate Linked(env: Env, trace: seq<State>, i: nat, batchSize: nat)
    requires batchSize > 0 && i + 1 < |trace|
  {
    Step(env, trace[i], trace[i + 1], batchSize)
  }

  lemma {:induction false} RunKeeps(env: Env, trace: seq<State>, batchSize: nat, n: nat)
    requires batchSize > 0 && Run(env, trace, batchSize) && n < |trace|
    ensures Inv(env, trace[n])
  {
    hide Inv, Step;
    if n > 0 {
      RunKeeps(env, trace, batchSize, n - 1);
      assert Linked(env, trace, n - 1, batchSize);
      StepKeeps(env, trace[n - 1], trace[n], batchSize);
    }
  }

  /** What the client has sent of the file under way, as the run shows it: the chunks with which the
      receiver leaves its idle place, since the upload began. */
  function SentNow(trace: seq<State>, n: nat): seq<Bytes>
    requires n < |trace|
  {
    if n == 0 || (trace[n - 1].done && !trace[n].done) then []
    else if trace[n - 1].recv.Idle? && trace[n].recv.Queried? then SentNow(trace, n - 1) + [trace[n].recv.chunk.data]
    else SentNow(trace, n - 1)
  }

  /** The files that were sent to their ends. */
  function SentFiles(trace: seq<State>, n: nat): map<nat, seq<Bytes>>
    requires n < |trace|
  {
    if n == 0 then map[]
    else if !trace[n - 1].done && trace[n].done then SentFiles(trace, n - 1)[trace[n].file := SentNow(trace, n)]
    else SentFiles(trace, n - 1)
  }

  /** What a step does to what was sent. */
  predicate Accounts(s: State, t: State) {
    && t.uploaded + Pending(t.recv) == (if s.done && !t.done then []
                                        else if s.recv.Idle? && t.recv.Queried?
                                        then s.uploaded + Pending(s.recv) + [t.recv.chunk.data]
                                        else s.uploaded + Pending(s.recv))
    && t.contents == if !s.done && t.done then s.contents[t.file := t.uploaded + Pending(t.recv)] else s.contents
  }

  lemma QueryAccounts(env: Env, s: State, data: Bytes)
    requires s.recv.Idle?
    ensures Accounts(s, Query(env, s, data))
  {
  }

  lemma DeliverAccounts(s: State, batchSize: nat)
    requires !s.recv.Idle? && batchSize > 0
    ensures Accounts(s, Deliver(s, batchSize))
  {
    var c := if s.recv.Queried? then s.recv.chunk else s.recv.item;
    assert s.uploaded + [c.data] + [] == s.uploaded + [c.data];
  }

  lemma EndAccounts(s: State)
    requires s.recv.Idle? && !s.done
    ensures Accounts(s, End(s))
  {
    assert s.uploaded + [] == s.uploaded;
  }

  lemma SameAccounts(s: State, t: State)
    requires t.uploaded == s.uploaded && t.contents == s.contents && t.done == s.done
    requires Pending(t.recv) == Pending(s.recv) && (s.recv.Idle? <==> t.recv.Idle?)
    ensures Accounts(s, t)
  {
  }

  lemma WriterAccounts(env: Env, s: State, t: State)
    requires WriterStep(env, s, t)
    ensures Accounts(s, t)
  {
    hide Pending, Accounts, Gives, Enroll, StorageKeeps, Enter;
    SameAccounts(s, t);
  }

  lemma StepAccounts(env: Env, s: State, t: State, batchSize: nat)
    requires batchSize > 0 && Inv(env, s) && Step(env, s, t, batchSize)
    ensures Accounts(s, t)
  {
    hide Accounts, Inv, Query, ReserveStep, Deliver, End, Next, WriterStep;
    if ReceiverStep(env, s, t, batchSize) {
      if s.recv.Queried? && s.recv.unique {
        var junk :| t == ReserveStep(s, junk);
        ReserveAccounts(s, junk);
      } else if !s.recv.Idle? {
        DeliverAccounts(s, batchSize);
      } else if t == End(s) {
        EndAccounts(s);
      } else {
        var data: Bytes :| Sent(env, s, data) && t == Query(env, s, data);
        QueryAccounts(env, s, data);
      }
    } else if NextUpload(s, t) {
      NextAccounts(env, s, t.world.id, t.file);
    } else {
      WriterAccounts(env, s, t);
    }
  }

  lemma ReserveAccounts(s: State, junk: Addr)
    requires s.recv.Queried?
    ensures Accounts(s, ReserveStep(s, junk))
  {
    SameAccounts(s, ReserveStep(s, junk));
  }

  lemma NextAccounts(env: Env, s: State, uuid: nat, file: nat)
    requires Inv(env, s) && s.writer.Exited?
    ensures Accounts(s, Next(s, uuid, file))
  {
    hide IndexOk, Line, FilesGood, FeaturesGood, Fingerprints, Carries;
  }

  lemma NothingPending(r: Receiver)
    requires r.Idle?
    ensures Pending(r) == []
  {
  }

  /** In every run, the contents that the recipes list are the chunks that were sent, in the order in
      which they were sent, repeated ones included. */
  lemma {:induction false} ContentsAreSent(env: Env, trace: seq<State>, batchSize: nat, n: nat)
    requires batchSize > 0 && Run(env, trace, batchSize) && n < |trace|
    requires trace[0].contents == map[] && trace[0].uploaded == [] && trace[0].recv.Idle?
    ensures trace[n].uploaded + Pending(trace[n].recv) == SentNow(trace, n)
    ensures trace[n].contents == SentFiles(trace, n)
  {
    hide Inv, Step, Pending;
    if n > 0 {
      ContentsAreSent(env, trace, batchSize, n - 1);
      RunKeeps(env, trace, batchSize, n - 1);
      assert Linked(env, trace, n - 1, batchSize);
      StepAccounts(env, trace[n - 1], trace[n], batchSize);
    } else {
      NothingPending(trace[0].recv);
    }
  }

  /** In every run, over any interleaving of the threads and any history of uploads, once the writer has
      left: every fingerprint of every recipe has an entry that gives back the uploaded chunk, whole or
      as a delta against a chunk stored whole; and the feature index names only chunks stored whole. */
  lemma EveryRun(env: Env, trace: seq<State>, batchSize: nat, n: nat, f: nat, i: nat)
    requires batchSize > 0 && Run(env, trace, batchSize) && n < |trace| && trace[n].writer.Exited?
    requires f in trace[n].files && i < |trace[n].files[f]|
    ensures var s, fp := trace[n], trace[n].files[f][i];
            && f in s.contents && |s.files[f]| == |s.contents[f]|
            && fp in s.world.index && Gives(env, s.world, s.world.index[fp], s.contents[f][i])
    ensures FeaturesOk(env, trace[n].world, trace[n].features)
  {
    RunKeeps(env, trace, batchSize, n);
    hide Gives, BaseReady, Lookup, Run;
    var s := trace[n];
    Drained(env, s);
    assert Lists(s.world.known, s.files[f], s.contents[f]);
    forall g | g in s.features ensures BaseReady(env, s.world, s.features[g]) {
      assert FeatureGood(env, s, s.features[g]);
    }
  }
}
