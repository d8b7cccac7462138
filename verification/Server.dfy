/** The storage server: uploads through the two threads' steps, and restores. Baseline/src/server's
    data_recv_thd.cc, data_writer_thd.cc, data_reader_thd.cc and data_decoder_thd.cc. */
module Server {
  import opened Basics
  import opened ReadCache
  import opened StorageCore
  import opened ServerState
  import opened UploadProtocol
  import SimilarPolicy

  /** Reader2Decoder_t: a chunk's stored bytes, and those of its base. */
  datatype Raw = Raw(input: Bytes, stat: Stat, base: Bytes, baseStat: Stat)

  datatype Restored = File(chunks: seq<Bytes>) | NoFile | Exit

  class Server {
    const env: Env
    const batchSize: nat
    const cacheSize: nat
    const core: StorageCore
    var client: ClientVar
    var index: map<nat, Addr>
    var features: map<nat, nat>
    var queue: seq<Wrapped>
    var done: bool
    var recv: Receiver
    var writer: Writer
    var recipe: seq<nat>
    var batch: seq<nat>
    var file: nat
    var files: map<nat, seq<nat>>
    ghost var known: map<nat, Bytes>
    ghost var uploaded: seq<Bytes>
    ghost var contents: map<nat, seq<Bytes>>
    ghost var log: seq<Bytes>     // what the client of this upload has sent: only Receive adds to it

    ghost function TheWorld(): World
      reads this, core, client, client.body
    {
      World(core.disk, client.id, client.Cur(), index, Line(writer, queue, recv), known)
    }

    ghost function Abs(): State
      reads this, core, client, client.body
    {
      State(TheWorld(), features, queue, done, recv, writer, recipe, batch, file, files, uploaded, contents)
    }

    ghost predicate Valid()
      reads this, core, client, client.body, client.cache, client.cache.readCache, client.cache.pool
    {
      && Lawful(env) && batchSize > 0 && cacheSize > 0 && core.Valid(client)
      && (if client.id in core.disk then writer.Exited? else writer.Exited? ==> client.curSize == 0)
      && Inv(env, Abs()) && log == uploaded + Pending(recv)
    }

    /** An empty server, whose last upload counts as finished. */
    constructor (env: Env, batchSize: nat, cacheSize: nat, uuid: nat)
      requires Lawful(env) && batchSize > 0 && cacheSize > 0
      ensures Valid() && writer.Exited? && files == map[] && contents == map[] && core.disk == map[] && known == map[]
      ensures this.env == env
    {
      this.env, this.batchSize, this.cacheSize := env, batchSize, cacheSize;
      core := new StorageCore();
      client := new ClientVar(cacheSize, uuid);
      index, features, queue, done := map[], map[], [], true;
      recv, writer, recipe, batch, file, files := Idle, Exited, [], [], 0, map[];
      known, uploaded, contents, log := map[], [], map[], [];
      new;
      hide Inv, Lawful, StorageCore.Valid, Line, Hand, Fps, Held;
      NewCore(client);
      EmptyOk(env, Abs());
    }

    /** A client begins to upload a file: a new session, with a container of its own. */
    method StartUpload(name: nat, uuid: nat)
      requires Valid() && writer.Exited? && uuid !in core.disk
      modifies this
      ensures Valid() && fresh(client) && fresh(client.body) && fresh(client.cache) && fresh(client.cache.readCache)
      ensures fresh(client.cache.pool) && Abs() == Next(old(Abs()), uuid, name) && log == []
      ensures recv.Idle? && !done && writer.Waiting? && file == name && known == old(known) && contents == old(contents)
    {
      hide Inv, Lawful, StorageCore.Valid, Line, Hand, Fps, Held;
      ghost var s := Abs();
      LastContainer();
      NextOk(env, s, uuid, name);
      DrainedLine(s);
      NewSession(uuid);
      ResetUpload(name);
    }

    method ResetUpload(name: nat)
      modifies this`queue, this`done, this`recv, this`writer, this`recipe, this`batch, this`file, this`uploaded,
               this`log
      ensures Line(writer, queue, recv) == []
      ensures queue == [] && !done && recv == Idle && writer == Waiting
      ensures recipe == [] && batch == [] && file == name && uploaded == [] && log == []
    {
      EmptyLine();
      queue, done, recv, writer := [], false, Idle, Waiting;
      recipe, batch, file, uploaded, log := [], [], name, [], [];
    }

    lemma EmptyLine()
      ensures Line(Waiting, [], Idle) == []
    {
    }

    method NewSession(uuid: nat)
      requires core.Valid(client) && cacheSize >= 1 && uuid !in core.disk
      modifies this`client
      ensures core.Valid(client) && client.Cur() == [] && client.id == uuid
      ensures fresh(client) && fresh(client.body) && fresh(client.cache) && fresh(client.cache.readCache)
      ensures fresh(client.cache.pool)
    {
      ghost var last := client;
      client := new ClientVar(cacheSize, uuid);
      FreshSession(last, client);
    }

    /** The last session's container is saved, or empty. */
    lemma LastContainer()
      requires Valid() && writer.Exited?
      ensures if client.id in core.disk then core.disk[client.id] == client.Cur() else client.Cur() == []
    {
      hide Inv, Lawful;
    }

    /** The empty storage, and its first session. */
    lemma NewCore(c: ClientVar)
      requires core.disk == map[] && c.cache.Valid() && c.cache.contents == map[]
      requires c.cache.itemSize == MAX_CONTAINER_SIZE && c.body.Length == MAX_CONTAINER_SIZE && c.curSize == 0
      ensures core.Valid(c) && c.Cur() == []
    {
    }

    lemma FreshSession(last: ClientVar, c: ClientVar)
      requires core.Valid(last) && c.cache.Valid() && c.cache.contents == map[] &&
               c.cache.itemSize == MAX_CONTAINER_SIZE
      requires c.body.Length == MAX_CONTAINER_SIZE && c.curSize == 0 && c.id !in core.disk
      ensures core.Valid(c) && c.Cur() == []
    {
    }

    lemma DrainedLine(s: State)
      requires Inv(env, s) && s.writer.Exited?
      ensures s.world.line == []
    {
      Drained(env, s);
    }

    // ----- the receiver's steps -----

    /** The receiver hashes a chunk and asks the index for it (DetectDuplicate's query). */
    method Receive(data: Bytes)
      requires Valid() && recv.Idle? && !done && 0 < |data| <= MAX_CONTAINER_SIZE && NoCollision(env, known, data)
      modifies this`recv, this`log
      ensures Valid() && Abs() == Query(env, old(Abs()), data) && log == old(log) + [data]
    {
      hide Inv, Lawful, StorageCore.Valid;
      QueryOk(env, Abs(), data);
      var fp := env.hash(data);
      recv := Queried(Wrapped(fp, env.features(data), data), fp !in index);
      log := log + [data];
    }

    /** DetectDuplicate reserves an entry: its address is whatever the variable holds. */
    method ReserveEntry(junk: Addr)
      requires Valid() && recv.Queried? && recv.unique
      modifies this`recv, this`index, this`known
      ensures Valid() && Abs() == ReserveStep(old(Abs()), junk)
    {
      hide Inv, Lawful, Line, Hand, Fps, Held, StorageCore.Valid;
      ReserveStepOk(env, Abs(), junk);
      ReserveLine(writer, queue, recv.chunk, recv.unique);
      var c := recv.chunk;
      index := index[c.fp := junk];
      known := known[c.fp := c.data];
      recv := Reserved(c);
    }

    lemma ReserveLine(w: Writer, q: seq<Wrapped>, c: Wrapped, unique: bool)
      ensures Line(w, q, Reserved(c)) == Line(w, q, Queried(c, unique)) + [c.fp]
    {
    }

    /** ProcessRecipe: the recipe is written in batches. */
    method ProcessRecipe(c: Wrapped)
      requires batchSize > 0
      modifies this`recipe, this`batch, this`uploaded
      ensures Abs() == Note(old(Abs()), c.fp, c.data, batchSize) && uploaded == old(uploaded) + [c.data]
    {
      batch := batch + [c.fp];
      if |batch| % batchSize == 0 {
        recipe := recipe + batch;
        batch := [];
      }
      uploaded := uploaded + [c.data];
    }

    /** ProcessRecipe, and Push for a unique chunk. */
    method FinishChunk()
      requires Valid() && (recv.Reserved? || (recv.Queried? && !recv.unique))
      modifies this`recv, this`queue, this`recipe, this`batch, this`uploaded
      ensures Valid() && Abs() == Deliver(old(Abs()), batchSize)
    {
      hide Note, Inv, Lawful, Line, Hand, Fps, Held, StorageCore.Valid;
      DeliverOk(env, Abs(), batchSize);
      var c := if recv.Queried? then recv.chunk else recv.item;
      DeliverLine(writer, queue, c);
      ghost var none: seq<Bytes> := [];
      assert uploaded + [c.data] + none == log;
      ProcessRecipe(c);
      if recv.Reserved? {
        queue := queue + [c];
      }
      recv := Idle;
    }

    /** The part of the recipe that is still buffered. */
    method WriteTail()
      modifies this`recipe, this`batch
      ensures recipe == old(recipe + batch) && batch == []
    {
      if |batch| != 0 {
        recipe := recipe + batch;
      }
      batch := [];
    }

    /** ProcessRecipeEnd */
    method EndUpload()
      requires Valid() && recv.Idle? && !done
      modifies this`recipe, this`batch, this`done, this`files, this`contents
      ensures Valid() && done && Abs() == End(old(Abs())) && contents == old(contents)[file := log]
    {
      hide Inv, Lawful, Line, Hand, Fps, Held, StorageCore.Valid;
      EndOk(env, Abs());
      assert uploaded + [] == uploaded;
      WriteTail();
      files := files[file := recipe];
      contents := contents[file := uploaded];
      done := true;
    }

    // ----- the writer's steps -----

    method PopChunk()
      requires Valid() && writer.Waiting? && queue != []
      modifies this`writer, this`queue
      ensures Valid() && Abs() == Pop(old(Abs()))
    {
      hide Inv, Lawful, Line, Hand, Fps, Held, StorageCore.Valid;
      PopOk(env, Abs());
      PopLine(queue, recv);
      writer := Popped(queue[0]);
      queue := queue[1..];
    }

    /** FetchBaseChunk: the two exits, for a base that the index does not have and for a wrong base chunk
        type, are not reached for a chunk stored whole. */
    method FetchBaseChunk(fp: nat) returns (ok: bool, base: Bytes)
      requires Valid() && BaseReady(env, TheWorld(), fp)
      modifies client.cache, client.cache.readCache, client.cache.pool
      ensures Valid() && Abs() == old(Abs()) && ok && base == known[fp]
    {
      hide Inv, Lawful, Line, Hand, Fps, Held, StorageCore.Valid;
      ghost var w := TheWorld();
      ok, base := false, [];
      if fp !in index {
        return;
      }
      var a := index[fp];
      var found, raw := core.ReadChunk(a, client);
      if !found {
        return;
      }
      match a.stat {
        case CompBase => ok, base := true, env.decompress(raw);
        case UncompBase => ok, base := true, raw;
        case _ => ok := false;
      }
    }

    /** FindBaseChunk, and the first half of ProcSimilarChunk or ProcNonSimilarChunk: the bytes to store. */
    method EncodeChunk(c: Wrapped, junk: nat) returns (ok: bool, stored: Bytes, stat: Stat, baseFp: nat)
      requires Valid() && writer.Popped? && c == writer.chunk
      modifies client.cache, client.cache.readCache, client.cache.pool
      ensures Valid() && Abs() == old(Abs()) && ok && 0 < |stored| <= MAX_CONTAINER_SIZE
      ensures if IsBase(stat) then Unpack(env, stat, stored) == c.data
              else BaseReady(env, TheWorld(), baseFp)
                   && env.deltaDecode(known[baseFp], Unpack(env, stat, stored)) == c.data
      ensures SimilarPolicy.GoodBase(features, c.features,
                                     if IsBase(stat) then SimilarPolicy.NonSimilar else SimilarPolicy.Similar(baseFp))
      ensures var p := env.compress(if IsBase(stat) then c.data else env.deltaEncode(known[baseFp], c.data));
              stored == p.bytes && (p.ok <==> stat.CompBase? || stat.CompDelta?)
    {
      hide Inv, Lawful, Line, StorageCore.Valid, BaseReady, TheWorld, SimilarPolicy.GoodBase;
      WriterCarries(Abs());
      ghost var s := Abs();
      var b := SimilarPolicy.FindBaseChunk(features, c.features);
      match b {
        case Similar(fp) =>
          GoodBaseKnown(c.features, fp);
          BaseIsReady(s, c.features, fp);
          var base;
          ok, base := FetchBaseChunk(fp);
          if !ok {
            return;
          }
          var p := env.compress(env.deltaEncode(base, c.data));
          DeltaLaw(base, c.data);
          stored, stat, baseFp := p.bytes, if p.ok then CompDelta else UncompDelta, fp;
        case NonSimilar =>
          var p := env.compress(c.data);
          PackLaw(c.data);
          ok, stored, stat, baseFp := true, p.bytes, if p.ok then CompBase else UncompBase, junk;
      }
    }

    lemma GoodBaseKnown(fs: seq<nat>, fp: nat)
      requires SimilarPolicy.GoodBase(features, fs, SimilarPolicy.Similar(fp))
      ensures exists i :: 0 <= i < |fs| && fs[i] in features && features[fs[i]] == fp
    {
    }

    /** FindBaseChunk, then ProcSimilarChunk or ProcNonSimilarChunk. */
    method StoreChunk(uuid: nat, junk: Addr) returns (ok: bool)
      requires Valid() && writer.Popped? && uuid !in core.disk && uuid != client.id
      modifies this`writer, core, client, client.body, client.cache, client.cache.readCache, client.cache.pool
      ensures Valid() && ok && writer.Stored?
      ensures Abs() == Store(old(Abs()), TheWorld(), writer.addr) && WriterStep(env, old(Abs()), Abs())
      ensures SimilarPolicy.GoodBase(features, writer.item.features,
                                     if IsBase(writer.addr.stat) then SimilarPolicy.NonSimilar
                                     else SimilarPolicy.Similar(writer.addr.baseFp))
    {
      hide Inv, Lawful, Line, StorageCore.Valid, BaseReady, Lookup, Keeps, SimilarPolicy.GoodBase;
      ghost var s := Abs();
      var c := writer.chunk;
      var stored, stat, baseFp;
      ok, stored, stat, baseFp := EncodeChunk(c, junk.baseFp);
      if !ok {
        return;
      }
      IndexGood(s);
      var a := core.WriteChunk(junk.(baseFp := baseFp), stored, client, uuid);
      StoredGives(s.world, TheWorld(), a, stat, c.data, stored);
      a := a.(stat := stat);
      StoreStepOk(env, s, TheWorld(), a);
      LineOfFeature(c, a, queue, recv);
      writer := Stored(c, a);
    }

    lemma WriterCarries(s: State)
      requires Inv(env, s) && s.writer.Popped?
      ensures Carries(env, s.world.known, s.writer.chunk)
    {
    }

    lemma IndexGood(s: State)
      requires Inv(env, s)
      ensures IndexOk(env, s.world)
    {
    }

    /** What was stored comes back from its address. */
    lemma StoredGives(w: World, v: World, a: Addr, stat: Stat, data: Bytes, stored: Bytes)
      requires IndexOk(env, w) && v == w.(disk := v.disk, id := v.id, cur := v.cur)
      requires Keeps(w.disk, w.id, w.cur, v.disk, v.id, v.cur)
      requires Lookup(v.disk, v.id, v.cur, a) == Found.Bytes(stored) && a.len > 0
      requires if IsBase(stat) then Unpack(env, stat, stored) == data
               else BaseReady(env, w, a.baseFp) && env.deltaDecode(w.known[a.baseFp], Unpack(env, stat, stored)) == data
      ensures Gives(env, v, a.(stat := stat), data)
    {
      StoreOk(env, w, v);
      assert Lookup(v.disk, v.id, v.cur, a.(stat := stat)) == Lookup(v.disk, v.id, v.cur, a);
      hide Lookup, IndexOk;
      if !IsBase(stat) {
        BaseStays(env, w, v, a.baseFp);
      }
    }

    lemma PackLaw(x: Bytes)
      requires Lawful(env) && 0 < |x| <= MAX_CONTAINER_SIZE
      ensures PacksWell(env, x)
    {
    }

    lemma DeltaLaw(b: Bytes, x: Bytes)
      requires Lawful(env) && 0 < |x| <= MAX_CONTAINER_SIZE
      ensures DeltaWell(env, b, x) && PacksWell(env, env.deltaEncode(b, x))
    {
      assert DeltaWell(env, b, x);
    }

    /** Between its steps, every base the writer can choose is stored whole. */
    lemma BaseIsReady(s: State, fs: seq<nat>, fp: nat)
      requires Inv(env, s) && s.writer.Popped?
      requires exists i :: 0 <= i < |fs| && fs[i] in s.features && s.features[fs[i]] == fp
      ensures BaseReady(env, s.world, fp)
    {
      hide BaseReady, Gives, IndexOk, Lists;
      var i :| 0 <= i < |fs| && fs[i] in s.features && s.features[fs[i]] == fp;
      assert FeatureGood(env, s, s.features[fs[i]]);
    }

    /** UpdateFeatureIndex, after a chunk was stored whole. */
    method UpdateFeatures()
      requires Valid() && writer.Stored?
      modifies this`writer, this`features
      ensures Valid() && Abs() == Feature(old(Abs()))
      ensures !IsBase(old(writer.addr.stat)) ==> features == old(features)
      ensures IsBase(old(writer.addr.stat)) ==>
                && (forall f :: f in old(writer.item.features) ==>
                      f in features && features[f] == old(writer.item.fp))
                && (forall f :: f !in old(writer.item.features) ==>
                      (f in features <==> f in old(features)) && (f in features ==> features[f] == old(features)[f]))
    {
      hide Inv, Lawful, Line, Hand, Fps, Held, StorageCore.Valid;
      FeatureOk(env, Abs());
      EnrollEnters(features, writer.item.features, writer.item.fp);
      hide Enroll;
      LineOfFeature(writer.item, writer.addr, queue, recv);
      var c, a := writer.item, writer.addr;
      if a.stat.CompBase? || a.stat.UncompBase? {
        features := EnrollAll(features, c.features, c.fp);
      }
      writer := Featured(c, a);
    }

    lemma LineOfFeature(c: Wrapped, a: Addr, q: seq<Wrapped>, r: Receiver)
      ensures Line(Featured(c, a), q, r) == Line(Stored(c, a), q, r) == Line(Popped(c), q, r)
    {
    }

    /** The loop of UpdateFeatureIndex. */
    method EnrollAll(features: map<nat, nat>, fs: seq<nat>, fp: nat) returns (m: map<nat, nat>)
      ensures m == Enroll(features, fs, fp)
    {
      m := features;
      for i := 0 to |fs|
        invariant m == Enroll(features, fs[..i], fp)
      {
        assert fs[..i + 1][..i] == fs[..i];
        m := m[fs[i] := fp];
      }
      assert fs[..|fs|] == fs;
    }

    /** The address goes into the fingerprint index. */
    method EnterAddress()
      requires Valid() && writer.Featured?
      modifies this`writer, this`index
      ensures Valid() && old(Abs()).world.line != [] && Abs() == Index(old(Abs()))
    {
      hide Inv, Lawful, Line, Hand, Fps, Held, StorageCore.Valid;
      IndexStepOk(env, Abs());
      HeadOfLine(env, Abs());
      LineOfEntry(queue, recv);
      index := index[writer.entry.fp := writer.at];
      writer := Waiting;
    }

    lemma LineOfEntry(q: seq<Wrapped>, r: Receiver)
      ensures Line(Waiting, q, r) == Fps(q) + Held(r)
    {
      assert [] + Fps(q) == Fps(q);
    }

    /** The writer's loop ends on a marked and empty queue; the last container is saved. */
    method LeaveLoop()
      requires Valid() && writer.Waiting? && done && queue == []
      modifies this`writer, core
      ensures Valid() && writer.Exited? && Abs() == Leave(old(Abs()), TheWorld()) && WriterStep(env, old(Abs()), Abs())
      ensures core.disk == if client.Cur() == [] then old(core.disk) else old(core.disk)[client.id := client.Cur()]
    {
      hide Inv, Lawful, Line, Hand, Fps, Held;
      ghost var s := Abs();
      LineOfExit(queue, recv);
      if client.curSize != 0 {
        SaveKeeps(core.disk, client.id, client.Cur(), client.id);
        core.SaveContainer(client);
      } else {
        assert Keeps(core.disk, client.id, client.Cur(), core.disk, client.id, client.Cur());
      }
      LeaveOk(env, s, TheWorld());
      writer := Exited;
    }

    lemma LineOfExit(q: seq<Wrapped>, r: Receiver)
      ensures Line(Exited, q, r) == Line(Waiting, q, r)
    {
    }

    // ----- restoring -----

    /** All that the index points to is on the disk once the writer has left. */
    lemma OnDisk(a: Addr, c: ClientVar)
      requires Valid() && writer.Exited? && TheWorld().Find(a).Bytes?
      requires core.Valid(c) && c.id !in core.disk
      ensures a.id in core.disk && core.At(c, a) == TheWorld().Find(a)
    {
      hide Inv, Lawful;
      LastContainer();
    }

    /** The entry of an uploaded chunk, and that of its base. */
    lemma EntryReady(fp: nat)
      requires Valid() && writer.Exited? && fp in known
      ensures fp in index && Gives(env, TheWorld(), index[fp], known[fp])
    {
      hide Gives, BaseReady, Lookup, Lists;
      Drained(env, Abs());
    }

    /** DataReaderThd.FetchChunk: the stored bytes of a chunk and, of a delta, those of its base. */
    method FetchChunk(fp: nat, c: ClientVar) returns (ok: bool, raw: Raw)
      requires Valid() && writer.Exited? && fp in known && core.Valid(c) && c.id !in core.disk && c != client
      requires c.cache != client.cache && c.cache.readCache != client.cache.readCache &&
               c.cache.pool != client.cache.pool
      modifies c.cache, c.cache.readCache, c.cache.pool
      ensures Valid() && core.Valid(c) && Abs() == old(Abs())
      ensures ok && raw.input == RawOf(index[fp]) && fp in index
      ensures !IsBase(raw.stat) ==> BaseReady(env, TheWorld(), index[fp].baseFp)
                                    && raw.base == RawOf(index[index[fp].baseFp]) &&
                                        raw.baseStat == index[index[fp].baseFp].stat
      ensures raw.stat == index[fp].stat
    {
      hide Inv, Lawful, Line, Hand, Fps, Held, StorageCore.Valid, BaseReady, Lookup;
      EntryReady(fp);
      ok, raw := false, Raw([], UncompBase, [], UncompBase);
      if fp !in index {
        return;
      }
      var a := index[fp];
      OnDisk(a, c);
      var input;
      ok, input := core.ReadChunk(a, c);
      if !ok {
        return;
      }
      raw := Raw(input, a.stat, [], UncompBase);
      if a.stat.UncompDelta? || a.stat.CompDelta? {
        BaseEntry(a.baseFp);
        if a.baseFp !in index {
          return false, raw;
        }
        var b := index[a.baseFp];
        OnDisk(b, c);
        var base;
        ok, base := core.ReadChunk(b, c);
        if !ok {
          return;
        }
        raw := Raw(input, a.stat, base, b.stat);
      }
    }

    ghost function RawOf(a: Addr): Bytes
      reads this, core, client, client.body
    {
      var f := TheWorld().Find(a);
      if f.Bytes? then f.value else []
    }

    lemma BaseEntry(fp: nat)
      requires BaseReady(env, TheWorld(), fp)
      ensures fp in index && TheWorld().Find(index[fp]).Bytes?
    {
    }

    /** DataDecoderThd.DecodeChunk; None stands for the exit on a multi-level delta. */
    method DecodeChunk(raw: Raw) returns (ok: bool, chunk: Bytes)
      ensures ok <==> IsBase(raw.stat) || IsBase(raw.baseStat)
      ensures ok ==> chunk == if IsBase(raw.stat) then Unpack(env, raw.stat, raw.input)
                              else env.deltaDecode(Unpack(env, raw.baseStat, raw.base),
                                  Unpack(env, raw.stat, raw.input))
    {
      var input := if raw.stat.CompBase? || raw.stat.CompDelta? then env.decompress(raw.input) else raw.input;
      if raw.stat.CompDelta? || raw.stat.UncompDelta? {
        var base;
        if raw.baseStat.UncompBase? || raw.baseStat.CompBase? {
          base := if raw.baseStat.CompBase? then env.decompress(raw.base) else raw.base;
        } else {
          return false, [];
        }
        chunk := env.deltaDecode(base, input);
      } else {
        chunk := input;
      }
      ok := true;
    }

    /** The bytes fetched are decoded to the chunk that was uploaded. */
    lemma Decoded(fp: nat, raw: Raw)
      requires Valid() && writer.Exited? && fp in known && fp in index
      requires raw.stat == index[fp].stat && raw.input == RawOf(index[fp])
      requires !IsBase(raw.stat) ==> BaseReady(env, TheWorld(), index[fp].baseFp)
                                     && raw.base == RawOf(index[index[fp].baseFp]) &&
                                         raw.baseStat == index[index[fp].baseFp].stat
      ensures IsBase(raw.stat) || IsBase(raw.baseStat)
      ensures known[fp] == if IsBase(raw.stat) then Unpack(env, raw.stat, raw.input)
                           else env.deltaDecode(Unpack(env, raw.baseStat, raw.base), Unpack(env, raw.stat, raw.input))
    {
      EntryReady(fp);
      hide Inv, Lawful, Line, StorageCore.Valid, Lookup;
    }

    /** A download: every chunk of the file's recipe is fetched and decoded, in a session of its own. Of
        a file that was uploaded completely, what comes back is what was sent; no exit is reached. */
    method Restore(name: nat, uuid: nat) returns (r: Restored)
      requires Valid() && writer.Exited? && uuid !in core.disk
      ensures Valid() && Abs() == old(Abs())
      ensures name in contents ==> r == File(contents[name])
      ensures name !in contents ==> r == NoFile
    {
      hide Inv, Lawful, Line, Hand, Fps, Held, StorageCore.Valid, BaseReady, Lookup, Gives, Unpack;
      FilesListed(name);
      if name !in files {
        return NoFile;
      }
      var c := new ClientVar(cacheSize, uuid);
      FreshSession(client, c);
      var ok, chunks := RestoreChunks(files[name], c, contents[name]);
      r := if ok then File(chunks) else Exit;
    }

    /** The loops of the two restoring threads over a recipe; the queue between them keeps the order. */
    method RestoreChunks(fps: seq<nat>, c: ClientVar, ghost sent: seq<Bytes>) returns (ok: bool, chunks: seq<Bytes>)
      requires Valid() && writer.Exited? && Lists(known, fps, sent)
      requires core.Valid(c) && c.id !in core.disk && c != client
      requires c.cache != client.cache && c.cache.readCache != client.cache.readCache &&
               c.cache.pool != client.cache.pool
      modifies c.cache, c.cache.readCache, c.cache.pool
      ensures Valid() && Abs() == old(Abs()) && ok && chunks == sent
    {
      hide Inv, Lawful, Line, Hand, Fps, Held, StorageCore.Valid;
      chunks := [];
      for i := 0 to |fps|
        invariant Valid() && core.Valid(c) && Abs() == old(Abs()) && chunks == sent[..i]
      {
        var chunk;
        ok, chunk := RestoreChunk(fps[i], c);
        if !ok {
          return;
        }
        chunks := chunks + [chunk];
      }
      ok := true;
    }

    method RestoreChunk(fp: nat, c: ClientVar) returns (ok: bool, chunk: Bytes)
      requires Valid() && writer.Exited? && fp in known && core.Valid(c) && c.id !in core.disk && c != client
      requires c.cache != client.cache && c.cache.readCache != client.cache.readCache &&
               c.cache.pool != client.cache.pool
      modifies c.cache, c.cache.readCache, c.cache.pool
      ensures Valid() && core.Valid(c) && Abs() == old(Abs()) && ok && chunk == known[fp]
    {
      hide Inv, Lawful, Line, Hand, Fps, Held, StorageCore.Valid, BaseReady, Lookup, Unpack;
      var raw;
      ok, raw := FetchChunk(fp, c);
      chunk := [];
      if !ok {
        return;
      }
      Decoded(fp, raw);
      ok, chunk := DecodeChunk(raw);
    }

    // ----- a whole upload -----

    /** Chunks that a client may send: no two fingerprints collide. */
    ghost predicate MaySend(chunks: seq<Bytes>)
      reads this
    {
      && (forall i :: 0 <= i < |chunks| ==> 0 < |chunks[i]| <= MAX_CONTAINER_SIZE && NoCollision(env, known, chunks[i]))
      && forall i, j :: 0 <= i < j < |chunks| && env.hash(chunks[i]) == env.hash(chunks[j]) ==> chunks[i] == chunks[j]
    }

    /** One turn of the loop of ProcessChunks. */
    method ReceiveChunk(data: Bytes, junk: Addr)
      requires Valid() && recv.Idle? && !done && 0 < |data| <= MAX_CONTAINER_SIZE && NoCollision(env, known, data)
      modifies this`recv, this`log, this`index, this`known, this`queue, this`recipe, this`batch, this`uploaded
      ensures Valid() && recv.Idle? && log == old(log) + [data]
      ensures forall fp :: fp in known ==>
                (fp == env.hash(data) && known[fp] == data) || (fp in old(known) && known[fp] == old(known)[fp])
    {
      hide Inv, Lawful, Line, Hand, Fps, Held, StorageCore.Valid, Note;
      Receive(data);
      if recv.unique {
        ReserveEntry(junk);
      }
      FinishChunk();
    }

    /** ProcessChunks: a batch of chunks. */
    method ProcessChunks(chunks: seq<Bytes>, junk: Addr)
      requires Valid() && recv.Idle? && !done && MaySend(chunks)
      modifies this`recv, this`log, this`index, this`known, this`queue, this`recipe, this`batch, this`uploaded
      ensures Valid() && recv.Idle? && log == old(log) + chunks
    {
      hide Inv, Lawful, Line, Hand, Fps, Held, StorageCore.Valid;
      for i := 0 to |chunks|
        invariant Valid() && recv.Idle? && log == old(log) + chunks[..i]
        invariant forall j :: i <= j < |chunks| ==> NoCollision(env, known, chunks[j])
      {
        ReceiveChunk(chunks[i], junk);
        assert old(log) + chunks[..i] + [chunks[i]] == old(log) + chunks[..i + 1];
      }
      assert chunks[..|chunks|] == chunks;
    }

    predicate Unused(uuid: nat)
      reads this, core, client
    {
      uuid !in core.disk && uuid != client.id
    }

    /** CreateUUID: some name that no container has. */
    method FreshName() returns (uuid: nat)
      ensures Unused(uuid)
    {
      ghost var name := Above(core.disk.Keys + {client.id});
      assert Unused(name);
      uuid :| Unused(uuid);
    }

    lemma {:induction false} Above(used: set<nat>) returns (name: nat)
      ensures name !in used && forall x: nat :: x in used ==> x < name
    {
      if used == {} {
        name := 0;
      } else {
        var y :| y in used;
        name := Above(used - {y});
        assert forall x: nat :: x in used ==> x in used - {y} || x == y;
        name := if y < name then name else y + 1;
      }
    }

    /** One turn of the writer's loop. */
    method WriteOne(junk: Addr)
      requires Valid() && writer.Waiting? && queue != []
      modifies this`writer, this`queue, this`features, this`index
      modifies core, client, client.body, client.cache, client.cache.readCache, client.cache.pool
      ensures Valid() && writer.Waiting? && queue == old(queue[1..])
    {
      hide Inv, Lawful, Line, Hand, Fps, Held, StorageCore.Valid;
      PopChunk();
      var uuid := FreshName();
      var ok := StoreChunk(uuid, junk);
      UpdateFeatures();
      EnterAddress();
    }

    /** DataWriterThd.Run, on a queue to which nothing more is added. */
    method RunWriter(junk: Addr)
      requires Valid() && writer.Waiting? && done
      modifies this`writer, this`queue, this`features, this`index
      modifies core, client, client.body, client.cache, client.cache.readCache, client.cache.pool
      ensures Valid() && writer.Exited?
    {
      hide Inv, Lawful, Line, Hand, Fps, Held, StorageCore.Valid;
      while !(done && queue == [])
        invariant Valid() && writer.Waiting?
        decreases |queue|
      {
        WriteOne(junk);
      }
      LeaveLoop();
    }

    /** An upload from its start to the end of both threads: the file has the chunks that were sent, and
        the files of other names what they had. */
    method Upload(name: nat, chunks: seq<Bytes>, junk: Addr)
      requires Valid() && writer.Exited? && MaySend(chunks)
      modifies this, core
      ensures Valid() && writer.Exited? && contents == old(contents)[name := chunks]
    {
      hide Inv, Lawful, Line, Hand, Fps, Held, StorageCore.Valid, Abs, Next, End, Pending;
      var uuid := FreshName();
      StartUpload(name, uuid);
      ProcessChunks(chunks, junk);
      ghost var none: seq<Bytes> := [];
      assert none + chunks == chunks;
      EndUpload();
      RunWriter(junk);
    }

    /** A file that was uploaded comes back as the chunks that were sent, repeated ones included. */
    method UploadAndRestore(name: nat, chunks: seq<Bytes>, junk: Addr) returns (r: Restored)
      requires Valid() && writer.Exited? && MaySend(chunks)
      modifies this, core
      ensures Valid() && writer.Exited? && r == File(chunks)
    {
      hide Inv, Lawful, Line, Hand, Fps, Held, StorageCore.Valid;
      Upload(name, chunks, junk);
      var uuid := FreshName();
      r := Restore(name, uuid);
    }

    lemma FilesListed(name: nat)
      requires Valid()
      ensures name in files <==> name in contents
      ensures name in files ==> Lists(known, files[name], contents[name])
    {
      hide Gives, BaseReady, Lookup, Lists;
    }
  }
}
