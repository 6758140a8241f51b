/** The hypotheses of the coherence theorems are needed: every step that breaks one of them can be continued to a state
    in which a finished purge has missed a stale value. */
module CacheInterleavings {
  import opened CacheIndex
  import opened CacheKeys
  import opened CacheProtocol
  import opened CacheSteps
  import opened CacheCoherence

  // ----- Runs, step by step -----

  lemma {:induction false} RunsThen(s: State, actions: seq<Action>, t: State, a: Action)
    requires Runs(s, actions, t) && Enabled(t, a)
    ensures Runs(s, actions + [a], Apply(t, a))
    decreases |actions|
  {
    if actions == [] {
      assert Runs(Apply(s, a), [], Apply(t, a));
      assert [a][1..] == [];
    } else {
      RunsThen(Apply(s, actions[0]), actions[1..], t, a);
      assert (actions + [a])[1..] == actions[1..] + [a];
    }
  }

  ghost predicate Reaches(s: State, t: State) {
    exists actions :: Runs(s, actions, t)
  }

  ghost predicate Reachable(prefix: string, s: State) {
    Reaches(Initial(prefix), s)
  }

  lemma Stay(s: State)
    ensures Reaches(s, s)
  {
    assert Runs(s, [], s);
  }

  lemma Then(from: State, s: State, a: Action) returns (t: State)
    requires Reaches(from, s) && Enabled(s, a)
    ensures t == Apply(s, a) && Reaches(from, t)
  {
    var actions :| Runs(from, actions, s);
    RunsThen(from, actions, s, a);
    t := Apply(s, a);
  }

  lemma UpdateTwice<T>(m: map<Id, T>, i: Id, a: T, b: T)
    ensures m[i := a][i := b] == m[i := b]
  {
  }

  // ----- What the indexes list, in every run -----

  ghost predicate Belongs(prefix: string, job: Job, k: Key) {
    job.index in IndexNames(prefix, k) && forall n :: n in job.also ==> n in IndexNames(prefix, k)
  }

  /** A purge handles keys of its own indexes, each once. */
  ghost predicate JobLists(prefix: string, job: Job) {
    && (forall k :: k in job.todo || k in job.gap || k in job.removed ==> Belongs(prefix, job, k))
    && job.todo !! job.gap + job.removed
  }

  ghost predicate ReaderLists(s: State, r: Reader) {
    (r.Flushing? ==> JobLists(s.prefix, r.job) && r.job.also == []) && (r.Computed? ==> r.version <= s.db)
  }

  ghost predicate WriterLists(s: State, w: Writer) {
    w.Purging? ==> JobLists(s.prefix, w.job)
  }

  ghost predicate ListInv(s: State) {
    && Lists(s)
    && (forall k :: k in s.data ==> s.data[k].version <= s.db)
    && (forall r :: r in s.readers ==> ReaderLists(s, s.readers[r]))
    && (forall w :: w in s.writers ==> WriterLists(s, s.writers[w]))
  }

  lemma StartJobLists(s: State, namespace: string)
    requires Lists(s)
    ensures JobLists(s.prefix, StartJob(s, namespace))
  {
    var job := StartJob(s, namespace);
    forall k | k in job.todo ensures Belongs(s.prefix, job, k) {
      IndexSelectsNamespace(s.prefix, namespace, k);
      PurgeClearsTop(s.prefix, namespace, k);
    }
  }

  lemma ReaderMoveLists(s: State, t: State, r: Id)
    requires ListInv(s) && Lists(t) && t.prefix == s.prefix && t.db == s.db && t.writers == s.writers
    requires r in t.readers && t.readers == s.readers[r := t.readers[r]] && ReaderLists(t, t.readers[r])
    requires forall k :: k in t.data ==> t.data[k].version <= t.db
    ensures ListInv(t)
  {
  }

  lemma ReaderStepLists(s: State, a: Action)
    requires ListInv(s) && Enabled(s, a)
    requires IsReaderStep(a)
    ensures ListInv(Apply(s, a))
  {
    StepKeepsLists(s, a);
    assert a.Miss? || ReaderLists(s, s.readers[a.r]);
    ReaderMoveLists(s, Apply(s, a), a.r);
  }

  lemma WriterMoveLists(s: State, t: State, w: Id)
    requires ListInv(s) && Lists(t) && t.prefix == s.prefix && t.db >= s.db && t.readers == s.readers
    requires w in t.writers && t.writers == s.writers[w := t.writers[w]] && WriterLists(t, t.writers[w])
    requires forall k :: k in t.data ==> k in s.data && t.data[k] == s.data[k]
    ensures ListInv(t)
  {
    forall r | r in t.readers ensures ReaderLists(t, t.readers[r]) {
      assert ReaderLists(s, s.readers[r]);
    }
  }

  lemma WriterStepLists(s: State, a: Action)
    requires ListInv(s) && Enabled(s, a) && (IsWriterMove(a) || a.BumpEpoch?)
    ensures ListInv(Apply(s, a))
  {
    StepKeepsLists(s, a);
    assert a.Commit? || WriterLists(s, s.writers[a.w]);
    if a.StartPurge? {
      StartJobLists(s, s.writers[a.w].namespaces[s.writers[a.w].done]);
    }
    WriterMoveLists(s, Apply(s, a), a.w);
  }

  lemma SweepLists(s: State, a: Action)
    requires ListInv(s) && Enabled(s, a) && IsSweep(a)
    ensures ListInv(Apply(s, a))
  {
    StepKeepsLists(s, a);
    WriterMoveLists(s, Apply(s, a), a.w);
  }

  lemma EvictLists(s: State, keys: set<Key>)
    requires ListInv(s)
    ensures ListInv(Apply(s, Evict(keys)))
  {
  }

  lemma {:induction false} RunLists(s: State, actions: seq<Action>, t: State)
    requires ListInv(s) && Runs(s, actions, t)
    ensures ListInv(t)
    decreases |actions|
  {
    if actions != [] {
      var a := actions[0];
      if IsSweep(a) {
        SweepLists(s, a);
      } else if a.Evict? {
        EvictLists(s, a.keys);
      } else if IsWriterMove(a) || a.BumpEpoch? {
        WriterStepLists(s, a);
      } else {
        ReaderStepLists(s, a);
      }
      RunLists(Apply(s, a), actions[1..], t);
    }
  }

  // ----- A live key that no index lists is missed -----

  /** The namespace whose purge reads index `n`. */
  lemma NamespaceOfIndex(prefix: string, k: Key, n: string) returns (namespace: string)
    requires n in IndexNames(prefix, k)
    ensures PurgedIndex(prefix, namespace) == n && Under(prefix, namespace, k)
  {
    var segments := Split(k[|prefix| + 1..]);
    SplitFirst(segments[0], "");
    SplitFirst(segments[1], "");
    SplitFirst(segments[0], segments[1]);
    namespace := if n == TopIndex(prefix, segments[0]) then segments[0] else segments[0] + ":" + segments[1];
    assert [segments[0]] + [segments[1]] == [segments[0], segments[1]];
    IndexSelectsNamespace(prefix, namespace, k);
  }

  lemma {:induction false} FreshId(ids: set<Id>) returns (w: Id)
    ensures w !in ids
  {
    w := 0;
    var rest := ids;
    while rest != {}
      invariant forall i :: i in ids ==> i in rest || i < w
      decreases rest
    {
      var i :| i in rest;
      w := if i < w then w else i + 1;
      rest := rest - {i};
    }
  }

  lemma Begin(from: State, s: State, w: Id, namespaces: seq<string>, keys: set<Key>) returns (t: State)
    requires Reaches(from, s) && w !in s.writers
    ensures Reaches(from, t)
    ensures t == s.(db := s.db + 1, writers := s.writers[w := Committed(s.db + 1, namespaces, keys)])
  {
    t := Then(from, s, Commit(w, namespaces, keys));
  }

  lemma Bump(from: State, s: State, w: Id) returns (t: State)
    requires Reaches(from, s) && w in s.writers && s.writers[w].Committed?
    ensures Reaches(from, t)
    ensures var c := s.writers[w];
            t == s.(epoch := s.epoch + 1,
                    writers := s.writers[w := Bumped(c.version, c.namespaces, c.keys, s.epoch + 1, 0)])
  {
    t := Then(from, s, BumpEpoch(w));
  }

  lemma CommitAndBump(from: State, s: State, w: Id, namespaces: seq<string>, keys: set<Key>) returns (t: State)
    requires Reaches(from, s) && w !in s.writers
    ensures Reaches(from, t)
    ensures t == s.(db := s.db + 1, epoch := s.epoch + 1,
                    writers := s.writers[w := Bumped(s.db + 1, namespaces, keys, s.epoch + 1, 0)])
  {
    var u := Begin(from, s, w, namespaces, keys);
    t := Bump(from, u, w);
    UpdateTwice(s.writers, w, Committed(s.db + 1, namespaces, keys), t.writers[w]);
  }

  lemma BeginPurge(from: State, s: State, w: Id) returns (t: State)
    requires Reaches(from, s) && w in s.writers && s.writers[w].Bumped? && s.writers[w].done < |s.writers[w].namespaces|
    ensures Reaches(from, t)
    ensures var c := s.writers[w];
            t == s.(writers := s.writers[w := Purging(c.version, c.namespaces, c.keys, c.bump, c.done,
                                                      StartJob(s, c.namespaces[c.done]))])
  {
    t := Then(from, s, StartPurge(w));
  }

  /** A running purge unlinks a chunk. */
  lemma Cut(from: State, s: State, w: Id, chunk: set<Key>) returns (t: State)
    requires Reaches(from, s) && w in s.writers && s.writers[w].Purging? && UnlinkEnabled(s.writers[w].job, chunk)
    ensures Reaches(from, t)
    ensures var c := s.writers[w];
            t == s.(data := s.data - chunk, writers := s.writers[w := c.(job := Unlinked(c.job, chunk))])
  {
    t := Then(from, s, PurgeUnlink(w, chunk));
  }

  /** A running purge takes its chunk out of the index. */
  lemma Unlist(from: State, s: State, w: Id) returns (t: State)
    requires Reaches(from, s) && w in s.writers && s.writers[w].Purging?
    ensures Reaches(from, t)
    ensures var c := s.writers[w];
            t == s.(index := Srem(s.index, c.job.index, c.job.gap),
                writers := s.writers[w := c.(job := Sremmed(c.job))])
  {
    t := Then(from, s, PurgeSrem(w));
  }

  lemma FinishPurge(from: State, s: State, w: Id) returns (t: State)
    requires Reaches(from, s) && w in s.writers && s.writers[w].Purging?
    requires s.writers[w].job.todo == s.writers[w].job.gap == {}
    ensures Reaches(from, t)
    ensures var c := s.writers[w];
            t == s.(index := SremAll(s.index, c.job.also, c.job.removed),
                    writers := s.writers[w := Bumped(c.version, c.namespaces, c.keys, c.bump, c.done + 1)])
  {
    t := Then(from, s, EndPurge(w));
  }

  lemma Finish(from: State, s: State, w: Id) returns (t: State)
    requires Reaches(from, s) && w in s.writers && s.writers[w].Bumped? &&
        s.writers[w].done == |s.writers[w].namespaces|
    ensures Reaches(from, t)
    ensures var c := s.writers[w];
            t == DropAll(s, c.keys).(writers := s.writers[w := Finished(c.version, c.namespaces, c.keys, c.bump)])
  {
    t := Then(from, s, DropKeys(w));
  }

  /** A running purge deletes all it still has to, in one chunk. */
  lemma Drain(from: State, s: State, w: Id) returns (t: State)
    requires Reaches(from, s) && w in s.writers && s.writers[w].Purging? && s.writers[w].job.gap == {}
    ensures Reaches(from, t)
    ensures var c := s.writers[w];
            t == s.(data := s.data - c.job.todo, index := Srem(s.index, c.job.index, c.job.todo),
                    writers := s.writers[w := c.(job := c.job.(todo := {}, removed := c.job.removed + c.job.todo))])
  {
    var c := s.writers[w];
    t := Cut(from, s, w, c.job.todo);
    assert c.job.todo - c.job.todo == {};
    t := Unlist(from, t, w);
    assert t.writers == s.writers[w := t.writers[w]];
  }

  /** A purge of one namespace, begun and then left alone. */
  lemma EndAlone(from: State, s: State, w: Id) returns (t: State)
    requires Reaches(from, s) && w in s.writers && s.writers[w].Purging? && s.writers[w].job.gap == {}
    requires s.writers[w].done + 1 == |s.writers[w].namespaces| && s.writers[w].keys == {}
    ensures Reaches(from, t)
    ensures t.prefix == s.prefix && t.readers == s.readers && t.data == s.data - s.writers[w].job.todo
    ensures var c := s.writers[w]; t.writers == s.writers[w := Finished(c.version, c.namespaces, {}, c.bump)]
  {
    var u := Drain(from, s, w);
    var v := FinishPurge(from, u, w);
    t := Finish(from, v, w);
  }

  /** Writer `w` commits and purges one namespace, alone. */
  lemma PurgeAlone(from: State, s: State, w: Id, namespace: string) returns (t: State)
    requires Reaches(from, s) && w !in s.writers
    ensures Reaches(from, t)
    ensures t.prefix == s.prefix && t.readers == s.readers && t.data == s.data - StartJob(s, namespace).todo
    ensures t.writers == s.writers[w := Finished(s.db + 1, [namespace], {}, s.epoch + 1)]
  {
    var u := CommitAndBump(from, s, w, [namespace], {});
    assert StartJob(u, namespace) == StartJob(s, namespace);
    var v := BeginPurge(from, u, w);
    t := EndAlone(from, v, w);
  }

  /** A purge of `namespace` has finished and `k` below it holds a value computed before its commit, which no running
      reader or flush is going to remove. */
  ghost predicate StaleForGood(s: State, w: Id, namespace: string, k: Key) {
    && w in s.writers && s.writers[w].Finished? && s.writers[w].namespaces == [namespace]
    && Under(s.prefix, namespace, k) && Settled(s, k) && Stale(s.data[k], s.writers[w])
  }

  lemma UnlistedGoesStale(from: State, s: State, k: Key, n: string) returns (t: State, w: Id, namespace: string)
    requires Reaches(from, s) && ListInv(s) && Settled(s, k) && n in IndexNames(s.prefix, k) &&
        k !in Members(s.index, n)
    ensures Reaches(from, t) && StaleForGood(t, w, namespace, k)
  {
    namespace := NamespaceOfIndex(s.prefix, k, n);
    w := FreshId(s.writers.Keys);
    t := PurgeAlone(from, s, w, namespace);
    assert t.data[k] == s.data[k];
    assert Doomed(t, k) ==> Doomed(s, k);
  }

  // ----- The converse -----

  ghost predicate Unlisted(s: State, k: Key, n: string) {
    Settled(s, k) && n in IndexNames(s.prefix, k) && k !in Members(s.index, n)
  }

  /** Writers that do not sweep, and readers, leave the marks of a key alone. */
  lemma SameMarks(s: State, t: State, k: Key)
    requires Settled(s, k) && k in t.data && t.data[k] == s.data[k]
    requires Unsettled(t, t.data[k]) ==> Unsettled(s, s.data[k])
    requires forall w :: w in t.writers && t.writers[w].Sweeping? ==> w in s.writers && t.writers[w] == s.writers[w]
    ensures Settled(t, k)
  {
    assert Doomed(t, k) ==> Doomed(s, k);
  }

  lemma FlushSremUnlists(s: State, r: Id, k: Key) returns (t: State, n: string)
    requires ListInv(s) && Settled(s, k) && r in s.readers && s.readers[r].Flushing? && k in s.readers[r].job.gap
    ensures Reaches(s, t) && ListInv(t) && Unlisted(t, k, n)
  {
    n := s.readers[r].job.index;
    assert ReaderLists(s, s.readers[r]) && Belongs(s.prefix, s.readers[r].job, k);
    Stay(s);
    t := Then(s, s, FlushSrem(r));
    ReaderStepLists(s, FlushSrem(r));
    SameMarks(s, t, k);
  }

  lemma PurgeSremUnlists(s: State, w: Id, k: Key) returns (t: State, n: string)
    requires ListInv(s) && Settled(s, k) && w in s.writers && s.writers[w].Purging? && k in s.writers[w].job.gap
    ensures Reaches(s, t) && ListInv(t) && Unlisted(t, k, n)
  {
    n := s.writers[w].job.index;
    assert WriterLists(s, s.writers[w]) && Belongs(s.prefix, s.writers[w].job, k);
    Stay(s);
    WriterStepLists(s, PurgeSrem(w));
    t := Unlist(s, s, w);
    assert t == Apply(s, PurgeSrem(w));
    SameMarks(s, t, k);
  }

  /** The last SREM of a purge takes what it removed out of the top index. */
  lemma EndUnlists(s: State, w: Id, k: Key) returns (t: State, n: string)
    requires ListInv(s) && Settled(s, k) && w in s.writers && s.writers[w].Purging?
    requires s.writers[w].job.also != [] && s.writers[w].job.gap == {} && k in s.writers[w].job.removed
    ensures Reaches(s, t) && ListInv(t) && Unlisted(t, k, n)
  {
    n := s.writers[w].job.also[0];
    assert WriterLists(s, s.writers[w]) && Belongs(s.prefix, s.writers[w].job, k);
    Stay(s);
    var u := Drain(s, s, w);
    t := FinishPurge(s, u, w);
    SameMarks(s, t, k);
    ReachesKeepsLists(s, t);
  }

  lemma ReachesKeepsLists(s: State, t: State)
    requires ListInv(s) && Reaches(s, t)
    ensures ListInv(t)
  {
    var actions :| Runs(s, actions, t);
    RunLists(s, actions, t);
  }

  lemma RemovedUnlists(s: State, w: Id, k: Key) returns (t: State, n: string)
    requires ListInv(s) && Settled(s, k) && w in s.writers && s.writers[w].Purging?
    requires s.writers[w].job.also != [] && k in s.writers[w].job.removed
    ensures Reaches(s, t) && ListInv(t) && Unlisted(t, k, n)
  {
    Stay(s);
    var u := Unlist(s, s, w);
    SameMarks(s, u, k);
    ReachesKeepsLists(s, u);
    t, n := EndUnlists(u, w, k);
    ReachesJoin(s, u, t);
  }

  lemma {:induction false} RunsJoin(s: State, a: seq<Action>, t: State, b: seq<Action>, u: State)
    requires Runs(s, a, t) && Runs(t, b, u)
    ensures Runs(s, a + b, u)
    decreases |a|
  {
    if a == [] {
      assert a + b == b;
    } else {
      RunsJoin(Apply(s, a[0]), a[1..], t, b, u);
      assert (a + b)[1..] == a[1..] + b;
    }
  }

  lemma ReachesJoin(s: State, t: State, u: State)
    requires Reaches(s, t) && Reaches(t, u)
    ensures Reaches(s, u)
  {
    var a :| Runs(s, a, t);
    var b :| Runs(t, b, u);
    RunsJoin(s, a, t, b, u);
  }

  lemma DangerUnlists(s: State, k: Key) returns (t: State, n: string)
    requires ListInv(s) && Settled(s, k) && InDanger(s, k)
    ensures Reaches(s, t) && ListInv(t) && Unlisted(t, k, n)
  {
    if w :| w in s.writers && s.writers[w].Purging? && k in Danger(s.writers[w].job) {
      if k in s.writers[w].job.gap {
        t, n := PurgeSremUnlists(s, w, k);
      } else {
        t, n := RemovedUnlists(s, w, k);
      }
    } else {
      var r :| r in s.readers && s.readers[r].Flushing? && k in Danger(s.readers[r].job);
      assert ReaderLists(s, s.readers[r]);
      t, n := FlushSremUnlists(s, r, k);
    }
  }

  /** From every reachable state: a SET that breaks the gap hypothesis can be continued until a finished purge has
      missed its value for good. */
  lemma DangerousSetGoesStale(prefix: string, s: State, r: Id) returns (t: State, w: Id, namespace: string)
    requires Reachable(prefix, s) && Enabled(s, SetPipeline(r)) && !GapFree(s, SetPipeline(r))
    ensures Reaches(Apply(s, SetPipeline(r)), t) && Reachable(prefix, t)
    ensures StaleForGood(t, w, namespace, s.readers[r].key)
  {
    var k := s.readers[r].key;
    var u := Then(Initial(prefix), s, SetPipeline(r));
    InitialLists(prefix);
    ReachesKeepsLists(Initial(prefix), u);
    SetKeepsDanger(s, r, k);
    var v, n := DangerUnlists(u, k);
    t, w, namespace := UnlistedGoesStale(u, v, k, n);
    ReachesJoin(Initial(prefix), u, t);
  }

  lemma InitialLists(prefix: string)
    ensures ListInv(Initial(prefix))
  {
  }

  lemma SetKeepsDanger(s: State, r: Id, k: Key)
    requires Enabled(s, SetPipeline(r)) && InDanger(s, k)
    ensures InDanger(Store(s, r), k)
  {
    var t := Store(s, r);
    if w :| w in s.writers && s.writers[w].Purging? && k in Danger(s.writers[w].job) {
      assert t.writers[w] == s.writers[w];
    } else {
      var q :| q in s.readers && s.readers[q].Flushing? && k in Danger(s.readers[q].job);
      assert t.readers[q] == s.readers[q];
    }
  }

  /** The same for every settled key from which a full flush takes an index set away. */
  lemma DangerousSweepGoesStale(prefix: string, s: State, f: Id, names: set<string>, k: Key, n: string)
    returns (t: State, w: Id, namespace: string)
    requires Reachable(prefix, s) && Enabled(s, SweepUnlink(f, names))
    requires Settled(Apply(s, SweepUnlink(f, names)), k) && n in IndexNames(s.prefix, k) && n in names
    ensures !GapFree(s, SweepUnlink(f, names))
    ensures Reaches(Apply(s, SweepUnlink(f, names)), t) && Reachable(prefix, t)
    ensures StaleForGood(t, w, namespace, k)
  {
    var u := Then(Initial(prefix), s, SweepUnlink(f, names));
    InitialLists(prefix);
    ReachesKeepsLists(Initial(prefix), u);
    Stay(u);
    t, w, namespace := UnlistedGoesStale(u, u, k, n);
    ReachesJoin(Initial(prefix), u, t);
  }

  lemma OnlyFlushesRelease(s: State, f: Id, k: Key)
    requires Enabled(s, FailPurge(f))
    ensures Doomed(s, k) ==> s.writers[f].Sweeping? || Doomed(Apply(s, FailPurge(f)), k)
  {
    if w :| w in s.writers && w != f && s.writers[w].Sweeping? && k in s.writers[w].must {
      assert Apply(s, FailPurge(f)).writers[w] == s.writers[w];
    }
  }

  /** A failing flush releases keys that only it was going to unlink; the gaps of purges stay as they are. */
  lemma FailKeepsDanger(s: State, f: Id, k: Key)
    requires Enabled(s, FailPurge(f)) && InDanger(s, k) && !Settled(s, k) && Settled(Apply(s, FailPurge(f)), k)
    ensures InDanger(Apply(s, FailPurge(f)), k)
  {
    var t := Apply(s, FailPurge(f));
    OnlyFlushesRelease(s, f, k);
    if w :| w in s.writers && s.writers[w].Purging? && k in Danger(s.writers[w].job) {
      assert t.writers[w] == s.writers[w];
    } else {
      var r :| r in s.readers && s.readers[r].Flushing? && k in Danger(s.readers[r].job);
      assert t.readers[r] == s.readers[r];
    }
  }

  /** The same for every failure of a full flush that breaks the hypothesis. */
  lemma DangerousFailGoesStale(prefix: string, s: State, f: Id)
    returns (t: State, w: Id, namespace: string, k: Key)
    requires Reachable(prefix, s) && Enabled(s, FailPurge(f)) && !GapFree(s, FailPurge(f))
    ensures Reaches(Apply(s, FailPurge(f)), t) && Reachable(prefix, t)
    ensures StaleForGood(t, w, namespace, k)
  {
    var u := Then(Initial(prefix), s, FailPurge(f));
    InitialLists(prefix);
    ReachesKeepsLists(Initial(prefix), u);
    k :| Settled(u, k) && !Settled(s, k) && !(Listed(u, k) && !InDanger(s, k));
    if !Listed(u, k) {
      var n :| n in IndexNames(u.prefix, k) && k !in Members(u.index, n);
      Stay(u);
      t, w, namespace := UnlistedGoesStale(u, u, k, n);
    } else {
      FailKeepsDanger(s, f, k);
      var v, n := DangerUnlists(u, k);
      t, w, namespace := UnlistedGoesStale(u, v, k, n);
    }
    ReachesJoin(Initial(prefix), u, t);
  }

  /** The gap hypothesis is exact, step by step: from every reachable state, every step that breaks it can be continued
      until a finished purge has missed a stale value. */
  lemma BreakingStepGoesStale(prefix: string, s: State, a: Action)
    returns (t: State, w: Id, namespace: string, k: Key)
    requires Reachable(prefix, s) && Enabled(s, a) && !GapFree(s, a)
    ensures Reaches(Apply(s, a), t) && Reachable(prefix, t)
    ensures StaleForGood(t, w, namespace, k)
  {
    match a {
      case SetPipeline(r) =>
        k := s.readers[r].key;
        t, w, namespace := DangerousSetGoesStale(prefix, s, r);
      case SweepUnlink(f, names) =>
        var n;
        k, n :| Settled(Apply(s, a), k) && n in IndexNames(s.prefix, k) && n in names;
        t, w, namespace := DangerousSweepGoesStale(prefix, s, f, names, k, n);
      case FailPurge(f) =>
        t, w, namespace, k := DangerousFailGoesStale(prefix, s, f);
      case _ =>
    }
  }

  /** And it suffices: no run that keeps it reaches such a state. */
  lemma GapFreeRunsAreSafe(prefix: string, actions: seq<Action>, s: State, w: Id, namespace: string, k: Key)
    requires GapFreeRuns(Initial(prefix), actions, s)
    ensures !StaleForGood(s, w, namespace, k)
  {
    if StaleForGood(s, w, namespace, k) {
      NamespacesAreCoherent(prefix, actions, s, w, 0, k);
    }
  }

  // ----- Runs -----

  lemma KeyOfExample()
    ensures IndexNames("p", "p:a:x") == [TopIndex("p", "a")]
    ensures PurgedIndex("p", "a") == TopIndex("p", "a") && AlsoCleared("p", "a") == []
    ensures Under("p", "a", "p:a:x")
  {
    SplitFirst("a", "x");
    SplitFirst("x", "");
    var tail := "p:a:x"[2..];
    assert tail == "a:x" == "a" + ":" + "x";
    assert "p" + ":" + "a" + ":" == "p:a:x"[..4];
  }

  lemma NamesOfExample()
    ensures Swept("p", "p:a:x") && Swept("p", TopIndex("p", "a")) && TopIndex("p", "a") != "p:a:x"
  {
    assert TopIndex("p", "a") == "p:__idx:a" && "p" + ":__epoch" == "p:__epoch";
    assert "p" + ":" == "p:__idx:a"[..2] == "p:a:x"[..2];
    assert "p:__idx:a"[4] != "p:__epoch"[4] && |"p:a:x"| != |"p:__epoch"|;
  }

  lemma MissAndTakeEpoch(from: State, s: State, r: Id, k: Key) returns (t: State)
    requires Reaches(from, s) && r !in s.readers
    ensures Reaches(from, t) && t == s.(readers := s.readers[r := Reading(k, s.epoch)])
  {
    var u := Then(from, s, Miss(r, k));
    t := Then(from, u, TakeEpoch(r));
    UpdateTwice(s.readers, r, Looking(k), Reading(k, s.epoch));
  }

  lemma Compute(from: State, s: State, r: Id, k: Key) returns (t: State)
    requires Reaches(from, s) && r !in s.readers
    ensures Reaches(from, t)
    ensures t == s.(readers := s.readers[r := Computed(k, s.epoch, s.db)])
  {
    var u := MissAndTakeEpoch(from, s, r, k);
    t := Then(from, u, ReadDatabase(r));
    UpdateTwice(s.readers, r, Reading(k, s.epoch), Computed(k, s.epoch, s.db));
  }

  /** A reader stores what it has computed, and finds the epoch unchanged. */
  lemma StoreComputed(from: State, s: State, r: Id) returns (t: State)
    requires Reaches(from, s) && r in s.readers && s.readers[r].Computed? && s.readers[r].epoch == s.epoch
    ensures Reaches(from, t)
    ensures var c := s.readers[r];
            t == s.(data := s.data[c.key := Entry(c.version, r)],
                    index := Added(s.index, IndexNames(s.prefix, c.key), c.key),
                    readers := s.readers[r := Stored(c.key, c.epoch, c.version)])
  {
    t := Then(from, s, SetPipeline(r));
  }

  /** Reader `r` misses on `k`, computes a value and runs its SET pipeline. */
  lemma Refill(from: State, s: State, r: Id, k: Key) returns (t: State)
    requires Reaches(from, s) && r !in s.readers
    ensures Reaches(from, t)
    ensures t == s.(data := s.data[k := Entry(s.db, r)], index := Added(s.index, IndexNames(s.prefix, k), k),
                    readers := s.readers[r := Stored(k, s.epoch, s.db)])
  {
    var u := Compute(from, s, r, k);
    t := StoreComputed(from, u, r);
    UpdateTwice(s.readers, r, Computed(k, s.epoch, s.db), Stored(k, s.epoch, s.db));
  }

  /** Writer 0 is about to purge the namespace of a key that is live. */
  lemma PurgeOfLiveKey() returns (t: State)
    ensures Reachable("p", t) && t.prefix == "p" && 1 !in t.readers
    ensures t.writers.Keys == {0} && t.writers[0].Purging?
    ensures t.writers[0].job == Job(TopIndex("p", "a"), [], {"p:a:x"}, {}, {})
  {
    var k := "p:a:x";
    KeyOfExample();
    Stay(Initial("p"));
    var a := Refill(Initial("p"), Initial("p"), 0, k);
    assert Members(a.index, TopIndex("p", "a")) == {k};
    var b := CommitAndBump(Initial("p"), a, 0, ["a"], {});
    t := BeginPurge(Initial("p"), b, 0);
  }

  /** Reader 1 has computed the key that writer 0 has just unlinked. */
  lemma ComputedInsideGap() returns (t: State)
    ensures Reachable("p", t) && t.prefix == "p"
    ensures 1 in t.readers && t.readers[1] == Computed("p:a:x", t.epoch, t.db)
    ensures t.writers.Keys == {0} && t.writers[0].Purging? && "p:a:x" in t.writers[0].job.gap
  {
    var c := PurgeOfLiveKey();
    var d := Cut(Initial("p"), c, 0, {"p:a:x"});
    t := Compute(Initial("p"), d, 1, "p:a:x");
  }

  /** A SET between the UNLINK and the SREM of a purge: the next purge of the namespace misses the key. */
  lemma SetInsideGapIsMissed()
    ensures exists t, w, namespace :: Reachable("p", t) && StaleForGood(t, w, namespace, "p:a:x")
  {
    var s := ComputedInsideGap();
    assert "p:a:x" in Danger(s.writers[0].job);
    assert Settled(Apply(s, SetPipeline(1)), "p:a:x");
    var t, w, namespace := DangerousSetGoesStale("p", s, 1);
  }

  /** A writer has bumped and begun a full flush, alone. */
  lemma BeginSweep(s: State, w: Id) returns (t: State)
    requires Reachable("p", s) && w !in s.writers && s.writers == map[]
    ensures Reachable("p", t) && w in t.writers && t.writers[w].Sweeping? && t.writers.Keys == {w}
    ensures t.data == s.data && t.index == s.index && t.readers == s.readers && t.prefix == s.prefix
    ensures t.writers[w].must == set n | n in s.data.Keys + s.index.Keys && Swept(s.prefix, n)
  {
    var u := CommitAndBump(Initial("p"), s, w, [], {});
    t := Then(Initial("p"), u, StartSweep(w));
  }

  lemma Sweep(s: State, w: Id, names: set<string>) returns (t: State)
    requires Reachable("p", s) && Enabled(s, SweepUnlink(w, names))
    ensures Reachable("p", t) && t == Apply(s, SweepUnlink(w, names))
    ensures t.data == s.data - names && t.index == s.index - names && t.readers == s.readers && t.prefix == s.prefix
    ensures t.writers == s.writers[w := s.writers[w].(must := s.writers[w].must - names)]
  {
    t := Then(Initial("p"), s, SweepUnlink(w, names));
  }

  /** Reader 1 has set the key after the scan of a full flush by writer 0, which is not going to unlink it. */
  lemma SetInsideFlush() returns (t: State)
    ensures Reachable("p", t) && t.prefix == "p"
    ensures t.writers.Keys == {0} && t.writers[0].Sweeping? && "p:a:x" !in t.writers[0].must
    ensures "p:a:x" in t.data && t.data["p:a:x"].owner == 1 && 1 in t.readers && t.readers[1].Stored?
  {
    Stay(Initial("p"));
    var b := BeginSweep(Initial("p"), 0);
    t := Refill(Initial("p"), b, 1, "p:a:x");
  }

  /** The flush then unlinks the index set: later purges miss the key. */
  lemma SetInsideFlushIsMissed()
    ensures exists t, w, namespace :: Reachable("p", t) && StaleForGood(t, w, namespace, "p:a:x")
  {
    var k, ix := "p:a:x", TopIndex("p", "a");
    KeyOfExample();
    NamesOfExample();
    var s := SetInsideFlush();
    var t, w, namespace := DangerousSweepGoesStale("p", s, 0, {ix}, k, ix);
  }

  lemma FailFlush(s: State, w: Id) returns (t: State)
    requires Reachable("p", s) && w in s.writers && s.writers[w].Sweeping?
    ensures Reachable("p", t)
    ensures var c := s.writers[w];
            t == s.(writers := s.writers[w := Committed(c.version, c.namespaces, c.keys)])
  {
    t := Then(Initial("p"), s, FailPurge(w));
  }

  /** A full flush unlinks a name, and not yet the key that reader 1 has set. */
  lemma FlushHalfWay(k: Key, name: string) returns (t: State)
    requires Swept("p", name) && name != k
    ensures Reachable("p", t) && t.prefix == "p"
    ensures t.writers.Keys == {0} && t.writers[0].Sweeping? && name !in t.index
    ensures k in t.data && t.data[k].owner == 1 && 1 in t.readers && t.readers[1].Stored?
  {
    Stay(Initial("p"));
    var a := Refill(Initial("p"), Initial("p"), 1, k);
    var b := BeginSweep(a, 0);
    t := Sweep(b, 0, {name});
  }

  /** The name is the index set of the key, and the flush fails before it unlinks the key: later purges miss it. */
  lemma FailedFlushIsMissed()
    ensures exists t, w, namespace :: Reachable("p", t) && StaleForGood(t, w, namespace, "p:a:x")
  {
    var k, ix := "p:a:x", TopIndex("p", "a");
    KeyOfExample();
    NamesOfExample();
    var s := FlushHalfWay(k, ix);
    var u := FailFlush(s, 0);
    InitialLists("p");
    ReachesKeepsLists(Initial("p"), u);
    var t, w, namespace := UnlistedGoesStale(Initial("p"), u, k, ix);
  }

  /** Neither reader `r` nor writer `w` can take another step. */
  ghost predicate Over(s: State, r: Id, w: Id) {
    forall a :: Enabled(s, a) ==>
      && (IsReaderStep(a) ==> a.r != r)
      && (IsWriterStep(a) ==> a.w != w)
  }

  /** When a reader's own drop raises, `cache_set` only logs it: the stale value stays although the writer's purge of
      that very key has finished, and neither of the two is going to try again. */
  lemma FailedDropLeavesStale()
    ensures exists s ::
      Reachable("p", s) && 0 in s.writers && s.writers[0].Finished? && "p:a:x" in s.writers[0].keys &&
      "p:a:x" in s.data && Stale(s.data["p:a:x"], s.writers[0]) && s.data["p:a:x"].owner in s.readers &&
      s.readers[s.data["p:a:x"].owner].DropFailed? && Over(s, s.data["p:a:x"].owner, 0)
  {
    var k := "p:a:x";
    var d := StaleSetAfterPurge(k);
    var e := Then(Initial("p"), d, FailDrop(0));
    assert e.data[k] == Entry(0, 0) && e.writers == d.writers && e.readers[0].DropFailed?;
    FailedIsOver(e, 0, 0);
  }

  lemma FailedIsOver(s: State, r: Id, w: Id)
    requires r in s.readers && s.readers[r].DropFailed? && w in s.writers && s.writers[w].Finished?
    ensures Over(s, r, w)
  {
  }

  /** Reader 0 has stored the value it read before writer 0 committed, and has yet to drop it. */
  lemma StaleSetAfterPurge(k: Key) returns (t: State)
    ensures Reachable("p", t) && t.data == map[k := Entry(0, 0)]
    ensures 0 in t.readers && t.readers[0] == MustDrop(k, 0, 0)
    ensures 0 in t.writers && t.writers[0] == Finished(1, [], {k}, 1)
  {
    Stay(Initial("p"));
    var a := Compute(Initial("p"), Initial("p"), 0, k);
    var b := CommitAndBump(Initial("p"), a, 0, [], {k});
    var c := Finish(Initial("p"), b, 0);
    t := Then(Initial("p"), c, SetPipeline(0));
  }
}
