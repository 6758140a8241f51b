/** What one step of the cache protocol changes, and no more: which keys leave the data or an index set, and why. */
module CacheSteps {
  import opened CacheIndex
  import opened CacheKeys
  import opened CacheProtocol

  // ----- The data -----

  /** The step deletes key `k`: it is evicted, in the unlinked chunk, one of the writer's exact keys, or the key of the
      reader that drops its own. */
  predicate Deletes(s: State, a: Action, k: Key)
    requires Enabled(s, a)
  {
    match a
    case Evict(keys) => k in keys
    case FlushUnlink(_, chunk) => k in chunk
    case PurgeUnlink(_, chunk) => k in chunk
    case SweepUnlink(_, names) => k in names
    case DropKeys(w) => k in s.writers[w].keys
    case DropOwn(r) => k == s.readers[r].key
    case _ => false
  }

  /** Exactly those keys leave the data; only a SET stores, its own key and what its reader computed; every other entry
      stays as it is. */
  lemma StepChangesData(s: State, a: Action, k: Key)
    requires Enabled(s, a)
    ensures var t := Apply(s, a);
            if a.SetPipeline? && k == s.readers[a.r].key then
              k in t.data && t.data[k] == Entry(s.readers[a.r].version, a.r)
            else
              && (k in t.data <==> k in s.data && !Deletes(s, a, k))
              && (k in t.data ==> t.data[k] == s.data[k])
  {
  }

  // ----- The index sets -----

  /** The step takes `k` out of the set `n`: by an SREM of a purge, with the whole set in a flush, or with the key. */
  predicate Unlists(s: State, a: Action, n: string, k: Key)
    requires Enabled(s, a)
  {
    match a
    case FlushSrem(r) => n == s.readers[r].job.index && k in s.readers[r].job.gap
    case PurgeSrem(w) => n == s.writers[w].job.index && k in s.writers[w].job.gap
    case EndPurge(w) => n in s.writers[w].job.also && k in s.writers[w].job.removed
    case SweepUnlink(_, names) => n in names
    case DropKeys(w) => k in s.writers[w].keys && n in IndexNames(s.prefix, k)
    case DropOwn(r) => k == s.readers[r].key && n in IndexNames(s.prefix, k)
    case _ => false
  }

  predicate TouchesIndex(a: Action) {
    a.SetPipeline? || a.FlushSrem? || a.PurgeSrem? || a.EndPurge? || a.SweepUnlink? || a.DropKeys? || a.DropOwn?
  }

  lemma QuietStepKeepsIndex(s: State, a: Action)
    requires Enabled(s, a) && !TouchesIndex(a)
    ensures Apply(s, a).index == s.index
  {
  }

  /** A set loses exactly those members, and gains only the key of a SET that belongs to it. */
  lemma StepChangesIndex(s: State, a: Action, n: string, k: Key)
    requires Enabled(s, a)
    ensures k in Members(Apply(s, a).index, n) <==>
      (a.SetPipeline? && k == s.readers[a.r].key && n in IndexNames(s.prefix, k))
      || (k in Members(s.index, n) && !Unlists(s, a, n, k))
  {
    if !TouchesIndex(a) {
      QuietStepKeepsIndex(s, a);
    }
  }

  // ----- Everything else -----

  /** A reader step other than the SET. */
  predicate IsReaderMove(a: Action) {
    a.Miss? || a.TakeEpoch? || a.ReadDatabase? || a.DropOwn? || a.FailDrop? || a.StartFlush? || a.FlushUnlink? ||
    a.FlushSrem? || a.EndFlush?
  }

  predicate IsReaderStep(a: Action) {
    IsReaderMove(a) || a.SetPipeline?
  }

  /** A writer step other than the bump and those of a full flush. */
  predicate IsWriterMove(a: Action) {
    a.Commit? || a.StartPurge? || a.PurgeUnlink? || a.PurgeSrem? || a.EndPurge? || a.DropKeys? || a.FailPurge?
  }

  predicate IsSweep(a: Action) {
    a.StartSweep? || a.SweepUnlink? || a.SweepMiss? || a.EndSweep?
  }

  predicate IsWriterStep(a: Action) {
    IsWriterMove(a) || a.BumpEpoch? || IsSweep(a)
  }

  /** The database advances by commits alone, and the epoch by bumps alone. */
  lemma StepCounts(s: State, a: Action)
    requires Enabled(s, a)
    ensures var t := Apply(s, a);
            && t.prefix == s.prefix
            && t.db == s.db + (if a.Commit? then 1 else 0)
            && t.epoch == s.epoch + (if a.BumpEpoch? then 1 else 0)
  {
  }

  lemma WriterStepKeepsReaders(s: State, a: Action)
    requires Enabled(s, a) && !IsReaderStep(a)
    ensures Apply(s, a).readers == s.readers
  {
  }

  lemma ReaderStepKeepsWriters(s: State, a: Action)
    requires Enabled(s, a) && !IsWriterStep(a)
    ensures Apply(s, a).writers == s.writers
  {
  }

  /** Only the acting reader moves. */
  lemma OtherReadersStay(s: State, a: Action, r: Id)
    requires Enabled(s, a) && !(IsReaderStep(a) && r == a.r)
    ensures r in Apply(s, a).readers <==> r in s.readers
    ensures r in s.readers ==> Apply(s, a).readers[r] == s.readers[r]
  {
    if !IsReaderStep(a) {
      WriterStepKeepsReaders(s, a);
    }
  }

  /** Only the acting writer moves. */
  lemma OtherWritersStay(s: State, a: Action, w: Id)
    requires Enabled(s, a) && !(IsWriterStep(a) && w == a.w)
    ensures w in Apply(s, a).writers <==> w in s.writers
    ensures w in s.writers ==> Apply(s, a).writers[w] == s.writers[w]
  {
    if !IsWriterStep(a) {
      ReaderStepKeepsWriters(s, a);
    }
  }

  // ----- Running purges -----

  /** All that a purge has read from its index: still to delete, just deleted, or out of the index too. */
  function Covered(job: Job): set<Key> {
    job.todo + job.gap + job.removed
  }

  /** A reader's flush starts with the whole index; each chunk goes from `todo` to `gap` to `removed`, and nothing is
      lost on the way; then the reader is as before, or has dropped its own key. */
  lemma FlushMoves(s: State, a: Action)
    requires Enabled(s, a) && (a.DropOwn? || a.StartFlush? || a.FlushUnlink? || a.FlushSrem? || a.EndFlush?)
    ensures var r, r' := s.readers[a.r], Apply(s, a).readers[a.r];
            && r'.key == r.key
            && (a.DropOwn? ==> r'.Dropped? && r.key !in Apply(s, a).data)
            && (a.StartFlush? ==> r'.Flushing? && r'.job.index == IndexNames(s.prefix, r.key)[0] &&
                                  Covered(r'.job) == r'.job.todo == Members(s.index, r'.job.index))
            && (a.FlushUnlink? ==> r'.Flushing? && Covered(r'.job) == Covered(r.job) && r'.job.gap == a.chunk &&
                                   r'.job.todo == r.job.todo - a.chunk)
            && (a.FlushSrem? ==> r'.Flushing? && Covered(r'.job) == Covered(r.job) && r'.job.gap == {} &&
                                 r'.job.todo == r.job.todo)
            && (a.EndFlush? ==> r' == Stored(r.key, r.epoch, r.version))
  {
  }

  /** A writer's purge of a namespace, likewise. */
  lemma PurgeMoves(s: State, a: Action)
    requires Enabled(s, a) && (a.PurgeUnlink? || a.PurgeSrem? || a.EndPurge?)
    ensures var w, w' := s.writers[a.w], Apply(s, a).writers[a.w];
            && (a.PurgeUnlink? ==> w'.Purging? && Covered(w'.job) == Covered(w.job) && w'.job.gap == a.chunk &&
                                   w'.job.todo == w.job.todo - a.chunk)
            && (a.PurgeSrem? ==> w'.Purging? && Covered(w'.job) == Covered(w.job) && w'.job.gap == {} &&
                                 w'.job.todo == w.job.todo)
            && (a.EndPurge? ==> w'.Bumped? && w'.done == w.done + 1 && Covered(w.job) == w.job.removed)
  {
  }

  // ----- Why a purge deletes what it deletes -----

  /** Whatever a purge has read from its index, and has still to delete or to take out of an index, is under its
      namespace. */
  ghost predicate PurgesUnder(s: State, w: Writer) {
    w.Purging? ==>
      w.done < |w.namespaces| &&
      forall k :: k in w.job.todo || k in w.job.gap || k in w.job.removed ==> Under(s.prefix, w.namespaces[w.done], k)
  }

  /** What a reader's flush of an overflowing index is about shares the reader's first index. */
  ghost predicate FlushesSiblings(s: State, r: Reader) {
    r.Flushing? ==>
      IndexNames(s.prefix, r.key) != [] &&
      forall k :: k in r.job.todo || k in r.job.gap ==> IndexNames(s.prefix, r.key)[0] in IndexNames(s.prefix, k)
  }

  /** Index sets list only keys that belong to them. */
  ghost predicate Lists(s: State) {
    forall n, k :: k in Members(s.index, n) ==> n in IndexNames(s.prefix, k)
  }

  ghost predicate JobsInv(s: State) {
    && Lists(s)
    && (forall w :: w in s.writers ==> PurgesUnder(s, s.writers[w]))
    && (forall r :: r in s.readers ==> FlushesSiblings(s, s.readers[r]))
  }

  lemma StepKeepsLists(s: State, a: Action)
    requires Lists(s) && Enabled(s, a)
    ensures Lists(Apply(s, a))
  {
    forall n, k | k in Members(Apply(s, a).index, n) ensures n in IndexNames(s.prefix, k) {
      StepChangesIndex(s, a, n, k);
    }
  }

  lemma StartedJobIsUnder(s: State, namespace: string)
    requires Lists(s)
    ensures forall k :: k in StartJob(s, namespace).todo ==> Under(s.prefix, namespace, k)
  {
    forall k | k in StartJob(s, namespace).todo ensures Under(s.prefix, namespace, k) {
      IndexSelectsNamespace(s.prefix, namespace, k);
    }
  }

  lemma StartIsUnder(s: State, w: Id)
    requires Lists(s) && Enabled(s, StartPurge(w))
    ensures PurgesUnder(Apply(s, StartPurge(w)), Apply(s, StartPurge(w)).writers[w])
  {
    StartedJobIsUnder(s, s.writers[w].namespaces[s.writers[w].done]);
  }

  lemma OwnStepKeepsPurge(s: State, a: Action)
    requires Enabled(s, a) && IsWriterStep(a) && !a.StartPurge?
    requires a.w in s.writers ==> PurgesUnder(s, s.writers[a.w])
    ensures a.w in Apply(s, a).writers && PurgesUnder(Apply(s, a), Apply(s, a).writers[a.w])
  {
    if !a.PurgeUnlink? && !a.PurgeSrem? {
      assert !Apply(s, a).writers[a.w].Purging?;
    }
  }

  lemma StepKeepsPurges(s: State, a: Action, w: Id)
    requires JobsInv(s) && Enabled(s, a) && w in Apply(s, a).writers
    ensures PurgesUnder(Apply(s, a), Apply(s, a).writers[w])
  {
    assert w in s.writers ==> PurgesUnder(s, s.writers[w]);
    StepCounts(s, a);
    if a.StartPurge? && w == a.w {
      StartIsUnder(s, w);
    } else if IsWriterStep(a) && w == a.w {
      OwnStepKeepsPurge(s, a);
    } else {
      OtherWritersStay(s, a, w);
    }
  }

  lemma OwnStepKeepsFlush(s: State, a: Action)
    requires Lists(s) && Enabled(s, a) && IsReaderStep(a)
    requires a.r in s.readers ==> FlushesSiblings(s, s.readers[a.r])
    ensures FlushesSiblings(Apply(s, a), Apply(s, a).readers[a.r])
  {
  }

  lemma StepKeepsFlushes(s: State, a: Action, r: Id)
    requires JobsInv(s) && Enabled(s, a) && r in Apply(s, a).readers
    ensures FlushesSiblings(Apply(s, a), Apply(s, a).readers[r])
  {
    assert r in s.readers ==> FlushesSiblings(s, s.readers[r]);
    StepCounts(s, a);
    if IsReaderStep(a) && r == a.r {
      OwnStepKeepsFlush(s, a);
    } else {
      OtherReadersStay(s, a, r);
    }
  }

  lemma StepKeepsJobs(s: State, a: Action)
    requires JobsInv(s) && Enabled(s, a)
    ensures JobsInv(Apply(s, a))
  {
    StepKeepsLists(s, a);
    forall w | w in Apply(s, a).writers ensures PurgesUnder(Apply(s, a), Apply(s, a).writers[w]) {
      StepKeepsPurges(s, a, w);
    }
    forall r | r in Apply(s, a).readers ensures FlushesSiblings(Apply(s, a), Apply(s, a).readers[r]) {
      StepKeepsFlushes(s, a, r);
    }
  }

  lemma {:induction false} RunKeepsJobs(s: State, actions: seq<Action>, t: State)
    requires JobsInv(s) && Runs(s, actions, t)
    ensures JobsInv(t)
    decreases |actions|
  {
    if actions != [] {
      StepKeepsJobs(s, actions[0]);
      RunKeepsJobs(Apply(s, actions[0]), actions[1..], t);
    }
  }

  /** What a key may be deleted for. */
  ghost predicate Named(s: State, a: Action, k: Key)
    requires Enabled(s, a)
  {
    match a
    case Evict(keys) => k in keys
    case FlushUnlink(r, _) =>
      var names := IndexNames(s.prefix, s.readers[r].key);
      names != [] && names[0] in IndexNames(s.prefix, k)
    case PurgeUnlink(w, _) => exists n :: n in s.writers[w].namespaces && Under(s.prefix, n, k)
    case SweepUnlink(_, _) => s.prefix + ":" <= k && k != s.prefix + ":__epoch"
    case DropKeys(w) => k in s.writers[w].keys
    case DropOwn(r) => k == s.readers[r].key
    case _ => false
  }

  /** Over every run, a step deletes only keys that it is about: evicted ones, those under a namespace of the purging
      writer, its exact keys, everything under the prefix in a full flush, the reader's own key, or, when an index
      overflows, keys of the same top namespace. */
  lemma OnlyNamedKeysGo(prefix: string, actions: seq<Action>, s: State, a: Action, k: Key)
    requires Runs(Initial(prefix), actions, s) && Enabled(s, a)
    requires k in s.data && k !in Apply(s, a).data
    ensures Named(s, a, k)
  {
    RunKeepsJobs(Initial(prefix), actions, s);
    StepChangesData(s, a, k);
    if a.PurgeUnlink? {
      assert PurgesUnder(s, s.writers[a.w]);
      assert s.writers[a.w].namespaces[s.writers[a.w].done] in s.writers[a.w].namespaces;
    }
    if a.FlushUnlink? {
      assert FlushesSiblings(s, s.readers[a.r]);
    }
  }

  /** Exact keys are exact: invalidating `p:users:1` leaves `p:users:10` alone. */
  lemma ExactKeysAreExact(s: State, w: Id)
    requires Enabled(s, DropKeys(w)) && s.writers[w].keys == {"p:users:1"} && "p:users:10" in s.data
    ensures "p:users:10" in Apply(s, DropKeys(w)).data
  {
    StepChangesData(s, DropKeys(w), "p:users:10");
    assert |"p:users:10"| != |"p:users:1"|;
  }

  // ----- Failures and flushes -----

  /** A purge may fail at any time after it has begun and before it has finished. */
  lemma PurgesMayFail(s: State, w: Id)
    requires w in s.writers && !s.writers[w].Committed? && !s.writers[w].Finished? && !s.writers[w].Flushed?
    ensures Enabled(s, FailPurge(w)) && Apply(s, FailPurge(w)).writers[w].Committed?
    ensures Enabled(Apply(s, FailPurge(w)), BumpEpoch(w))
  {
  }

  /** What a flush has still to meet only shrinks, by the names that it unlinks or finds gone. */
  lemma FlushAdvances(s: State, a: Action, w: Id)
    requires w in s.writers && s.writers[w].Sweeping? && Enabled(s, a) && (a.SweepUnlink? || a.SweepMiss?) && a.w == w
    ensures Apply(s, a).writers[w] == s.writers[w].(must := s.writers[w].must - a.names)
  {
  }

  /** Names that are no longer there when the scan comes to them are missed. */
  lemma FlushMayMiss(s: State, w: Id, names: set<string>)
    requires w in s.writers && s.writers[w].Sweeping?
    ensures Enabled(s, SweepMiss(w, names)) <==> forall n :: n in names ==> n !in s.data && n !in s.index
  {
  }

  /** Once it has unlinked all of them it can end. */
  lemma FlushCanEnd(s: State, w: Id)
    requires w in s.writers && s.writers[w].Sweeping?
    requires forall n :: n in s.writers[w].must ==> Swept(s.prefix, n)
    ensures var a := SweepUnlink(w, s.writers[w].must);
            Enabled(s, a) && Enabled(Apply(s, a), EndSweep(w)) &&
            Apply(Apply(s, a), EndSweep(w)).writers[w].Flushed?
  {
    FlushAdvances(s, SweepUnlink(w, s.writers[w].must), w);
    assert s.writers[w].must - s.writers[w].must == {};
  }

  ghost predicate NoSets(actions: seq<Action>) {
    forall i :: 0 <= i < |actions| ==> !actions[i].SetPipeline?
  }

  /** What the flush has still to meet holds all that is left under the prefix. */
  ghost predicate ToMeet(s: State, w: Id) {
    && w in s.writers && s.writers[w].Sweeping?
    && (forall k :: k in s.data && Swept(s.prefix, k) ==> k in s.writers[w].must)
    && (forall n :: Members(s.index, n) != {} && Swept(s.prefix, n) ==> n in s.writers[w].must)
  }

  lemma StepKeepsToMeet(s: State, a: Action, w: Id)
    requires ToMeet(s, w) && Enabled(s, a) && !a.SetPipeline? && !((a.EndSweep? || a.FailPurge?) && a.w == w)
    ensures ToMeet(Apply(s, a), w)
  {
    var t := Apply(s, a);
    StepCounts(s, a);
    forall k | k in t.data && Swept(s.prefix, k) ensures k in t.writers[w].must {
      StepChangesData(s, a, k);
    }
    forall n | Members(t.index, n) != {} && Swept(s.prefix, n) ensures n in t.writers[w].must {
      var k :| k in Members(t.index, n);
      StepChangesIndex(s, a, n, k);
    }
  }

  lemma {:induction false} RunKeepsToMeet(s: State, actions: seq<Action>, t: State, w: Id)
    requires ToMeet(s, w) && Runs(s, actions, t) && NoSets(actions)
    requires forall i :: 0 <= i < |actions| ==> !((actions[i].EndSweep? || actions[i].FailPurge?) && actions[i].w == w)
    ensures ToMeet(t, w)
    decreases |actions|
  {
    if actions != [] {
      StepKeepsToMeet(s, actions[0], w);
      RunKeepsToMeet(Apply(s, actions[0]), actions[1..], t, w);
    }
  }

  /** A flush that ends has left no key under the prefix and no member in an index set there, if nothing was stored
      since its scan; the epoch counter is not its business. */
  lemma FlushLeavesNothing(s: State, w: Id, actions: seq<Action>, t: State)
    requires Enabled(s, StartSweep(w)) && Runs(Apply(s, StartSweep(w)), actions, t) && NoSets(actions)
    requires forall i :: 0 <= i < |actions| ==> !((actions[i].EndSweep? || actions[i].FailPurge?) && actions[i].w == w)
    requires Enabled(t, EndSweep(w))
    ensures forall k :: k in t.data && t.prefix + ":" <= k ==> k == t.prefix + ":__epoch"
    ensures forall n :: t.prefix + ":" <= n && Members(t.index, n) != {} ==> n == t.prefix + ":__epoch"
  {
    RunKeepsToMeet(Apply(s, StartSweep(w)), actions, t, w);
  }
}
