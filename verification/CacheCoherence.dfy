/** Coherence of the cache-aside protocol, over every interleaving. */
module CacheCoherence {
  import opened CacheIndex
  import opened CacheKeys
  import opened CacheProtocol
  import opened CacheSteps

  // ----- What readers and entries know -----

  predicate HasEpoch(r: Reader) {
    !r.Looking? && !r.Dropped?
  }

  predicate HasStored(r: Reader) {
    r.MustDrop? || r.DropFailed? || r.Stored? || r.Flushing?
  }

  predicate HasBumped(w: Writer) {
    !w.Committed?
  }

  /** The owner's SET saw another epoch and its own drop has not (yet) removed the value. */
  predicate Unsettled(s: State, e: Entry) {
    e.owner in s.readers && (s.readers[e.owner].MustDrop? || s.readers[e.owner].DropFailed?)
  }

  /** `e` was computed from a read made before the commit of `w`. */
  predicate Stale(e: Entry, w: Writer) {
    e.version < w.version
  }

  // ----- Invariant for exact keys -----

  ghost predicate ReaderOk(s: State, r: Reader) {
    HasEpoch(r) ==> r.epoch <= s.epoch
  }

  ghost predicate WriterOk(s: State, w: Writer) {
    w.version <= s.db && (HasBumped(w) ==> w.bump <= s.epoch)
  }

  /** A reader that read the database before a commit took its epoch before that commit's bump. */
  ghost predicate EpochBeforeBump(r: Reader, w: Writer) {
    r.Computed? && HasBumped(w) && r.version < w.version ==> r.epoch < w.bump
  }

  ghost predicate EntryOk(s: State, k: Key, e: Entry) {
    e.owner in s.readers && HasStored(s.readers[e.owner]) && s.readers[e.owner].key == k
  }

  ghost predicate KeysCoherent(s: State, w: Writer) {
    && (w.Finished? ==> forall k :: k in w.keys && k in s.data && Stale(s.data[k], w) ==> Unsettled(s, s.data[k]))
    && (w.Flushed? ==> forall k :: k in s.data && Swept(s.prefix, k) && Stale(s.data[k], w) ==> Unsettled(s, s.data[k]))
    && (w.Sweeping? ==> forall k :: k in s.data && Swept(s.prefix, k) && Stale(s.data[k], w) ==>
          Unsettled(s, s.data[k]) || k in w.must)
  }

  ghost predicate Inv(s: State) {
    && (forall r :: r in s.readers ==> ReaderOk(s, s.readers[r]))
    && (forall w :: w in s.writers ==> WriterOk(s, s.writers[w]))
    && (forall r, w :: r in s.readers && w in s.writers ==> EpochBeforeBump(s.readers[r], s.writers[w]))
    && (forall k :: k in s.data ==> EntryOk(s, k, s.data[k]))
    && (forall w :: w in s.writers ==> KeysCoherent(s, s.writers[w]))
  }

  /** A SET of a value that is stale for a writer that has bumped the epoch always finds the epoch changed. */
  lemma StaleSetIsCaught(s: State, r: Id, w: Id)
    requires Inv(s) && Enabled(s, SetPipeline(r)) && w in s.writers && HasBumped(s.writers[w])
    requires s.readers[r].version < s.writers[w].version
    ensures s.epoch != s.readers[r].epoch
  {
    assert EpochBeforeBump(s.readers[r], s.writers[w]) && WriterOk(s, s.writers[w]);
  }

  lemma SetKeepsKeysCoherent(s: State, r: Id, w: Writer)
    requires r in s.readers && s.readers[r].Computed? && (forall k :: k in s.data ==> EntryOk(s, k, s.data[k]))
    requires KeysCoherent(s, w)
    requires HasBumped(w) && s.readers[r].version < w.version ==> s.epoch != s.readers[r].epoch
    ensures KeysCoherent(Store(s, r), w)
  {
    forall k | k in s.data ensures s.data[k].owner != r {
      assert EntryOk(s, k, s.data[k]);
    }
  }

  lemma SetKeepsEntries(s: State, r: Id)
    requires r in s.readers && s.readers[r].Computed? && (forall k :: k in s.data ==> EntryOk(s, k, s.data[k]))
    ensures forall k :: k in Store(s, r).data ==> EntryOk(Store(s, r), k, Store(s, r).data[k])
  {
    var t := Store(s, r);
    forall k | k in t.data ensures EntryOk(t, k, t.data[k]) {
      assert k in s.data ==> EntryOk(s, k, s.data[k]);
    }
  }

  lemma SetKeepsAllKeys(s: State, r: Id)
    requires Inv(s) && Enabled(s, SetPipeline(r))
    ensures forall w :: w in s.writers ==> KeysCoherent(Store(s, r), s.writers[w])
  {
    forall w | w in s.writers ensures KeysCoherent(Store(s, r), s.writers[w]) {
      if HasBumped(s.writers[w]) && s.readers[r].version < s.writers[w].version {
        StaleSetIsCaught(s, r, w);
      }
      SetKeepsKeysCoherent(s, r, s.writers[w]);
    }
  }

  lemma SetKeepsOrder(s: State, r: Id)
    requires Inv(s) && Enabled(s, SetPipeline(r))
    ensures forall q :: q in Store(s, r).readers ==> ReaderOk(s, Store(s, r).readers[q])
    ensures forall q, w :: q in Store(s, r).readers && w in s.writers ==>
              EpochBeforeBump(Store(s, r).readers[q], s.writers[w])
  {
    assert ReaderOk(s, s.readers[r]);
  }

  lemma SetKeepsInv(s: State, r: Id)
    requires Inv(s) && Enabled(s, SetPipeline(r))
    ensures Inv(Store(s, r))
  {
    SetKeepsEntries(s, r);
    SetKeepsAllKeys(s, r);
    SetKeepsOrder(s, r);
  }

  ghost predicate Shrinks(s: State, t: State) {
    forall k :: k in t.data ==> k in s.data && t.data[k] == s.data[k]
  }

  ghost predicate KeepsMark(r: Reader, q: Reader)
    requires HasStored(r)
  {
    && HasStored(q) && q.key == r.key
    && (r.MustDrop? || r.DropFailed? ==> q.MustDrop? || q.DropFailed?)
  }

  /** A reader step other than the SET: nothing is stored, and a reader whose value may be live keeps its mark. */
  lemma ReaderMoveKeepsInv(s: State, t: State, r: Id)
    requires Inv(s) && Shrinks(s, t) && t.epoch == s.epoch && t.db == s.db && t.writers == s.writers
    requires t.prefix == s.prefix
    requires r in t.readers && t.readers == s.readers[r := t.readers[r]] && ReaderOk(t, t.readers[r])
    requires t.readers[r].Computed? ==> t.readers[r].version == s.db
    requires r in s.readers && HasStored(s.readers[r]) ==>
               s.readers[r].key !in t.data || KeepsMark(s.readers[r], t.readers[r])
    ensures Inv(t)
  {
    forall k | k in t.data
      ensures EntryOk(t, k, t.data[k]) && (Unsettled(s, s.data[k]) ==> Unsettled(t, t.data[k]))
    {
      assert EntryOk(s, k, s.data[k]);
    }
    forall w | w in t.writers ensures KeysCoherent(t, t.writers[w]) {
      assert KeysCoherent(s, s.writers[w]);
    }
    forall w | w in t.writers ensures EpochBeforeBump(t.readers[r], t.writers[w]) {
      assert WriterOk(s, s.writers[w]);
    }
  }

  ghost predicate SameBump(w: Writer, v: Writer) {
    HasBumped(w) && HasBumped(v) && v.version == w.version && v.bump == w.bump
  }

  /** A writer step other than the bump. */
  lemma WriterMoveKeepsInv(s: State, t: State, w: Id)
    requires Inv(s) && Shrinks(s, t) && t.epoch == s.epoch && t.db >= s.db && t.readers == s.readers
    requires t.prefix == s.prefix
    requires w in t.writers && t.writers == s.writers[w := t.writers[w]]
    requires WriterOk(t, t.writers[w]) && KeysCoherent(t, t.writers[w])
    requires HasBumped(t.writers[w]) ==> w in s.writers && SameBump(s.writers[w], t.writers[w])
    ensures Inv(t)
  {
    forall k | k in t.data ensures EntryOk(t, k, t.data[k]) {
      assert EntryOk(s, k, s.data[k]);
    }
    forall v | v in t.writers ensures KeysCoherent(t, t.writers[v]) {
      assert v != w ==> KeysCoherent(s, s.writers[v]);
    }
    forall r, v | r in t.readers && v in t.writers ensures EpochBeforeBump(t.readers[r], t.writers[v]) {
      assert v in s.writers ==> EpochBeforeBump(s.readers[r], s.writers[v]);
    }
  }

  lemma BumpKeepsOrder(s: State, w: Id)
    requires Inv(s) && Enabled(s, BumpEpoch(w))
    ensures var t := Apply(s, BumpEpoch(w));
            forall r, v :: r in t.readers && v in t.writers ==> EpochBeforeBump(t.readers[r], t.writers[v])
  {
    var t := Apply(s, BumpEpoch(w));
    forall r, v | r in t.readers && v in t.writers ensures EpochBeforeBump(t.readers[r], t.writers[v]) {
      assert EpochBeforeBump(s.readers[r], s.writers[v]) && ReaderOk(s, s.readers[r]);
    }
  }

  lemma BumpKeepsInv(s: State, w: Id)
    requires Inv(s) && Enabled(s, BumpEpoch(w))
    ensures Inv(Apply(s, BumpEpoch(w)))
  {
    var t := Apply(s, BumpEpoch(w));
    BumpKeepsOrder(s, w);
    forall k | k in t.data ensures EntryOk(t, k, t.data[k]) {
      assert EntryOk(s, k, s.data[k]);
    }
    forall v | v in t.writers ensures KeysCoherent(t, t.writers[v]) {
      assert KeysCoherent(s, s.writers[v]);
    }
  }

  lemma EvictKeepsInv(s: State, keys: set<Key>)
    requires Inv(s)
    ensures Inv(Apply(s, Evict(keys)))
  {
  }

  lemma ReaderStepKeepsInv(s: State, a: Action)
    requires Inv(s) && Enabled(s, a)
    requires IsReaderMove(a)
    ensures Inv(Apply(s, a))
  {
    var t := Apply(s, a);
    assert !a.Miss? ==> ReaderOk(s, s.readers[a.r]);
    ReaderMoveKeepsInv(s, t, a.r);
  }

  lemma WriterKeepsOwnKeys(s: State, a: Action)
    requires Enabled(s, a) && IsWriterMove(a)
    ensures Shrinks(s, Apply(s, a)) && KeysCoherent(Apply(s, a), Apply(s, a).writers[a.w])
  {
  }

  lemma WriterKeepsBump(s: State, a: Action)
    requires Enabled(s, a) && IsWriterMove(a) && (a.Commit? || WriterOk(s, s.writers[a.w]))
    ensures WriterOk(Apply(s, a), Apply(s, a).writers[a.w])
    ensures HasBumped(Apply(s, a).writers[a.w]) ==>
              a.w in s.writers && SameBump(s.writers[a.w], Apply(s, a).writers[a.w])
  {
  }

  lemma WriterStepKeepsInv(s: State, a: Action)
    requires Inv(s) && Enabled(s, a) && IsWriterMove(a)
    ensures Inv(Apply(s, a))
  {
    WriterKeepsOwnKeys(s, a);
    WriterKeepsBump(s, a);
    WriterMoveKeepsInv(s, Apply(s, a), a.w);
  }

  lemma SweepKeepsOwnKeys(s: State, a: Action)
    requires Enabled(s, a) && IsSweep(a) && KeysCoherent(s, s.writers[a.w])
    ensures KeysCoherent(Apply(s, a), Apply(s, a).writers[a.w])
  {
  }

  lemma SweepKeepsBump(s: State, a: Action)
    requires Enabled(s, a) && IsSweep(a) && WriterOk(s, s.writers[a.w])
    ensures WriterOk(Apply(s, a), Apply(s, a).writers[a.w]) && SameBump(s.writers[a.w], Apply(s, a).writers[a.w])
  {
  }

  lemma SweepStepKeepsInv(s: State, a: Action)
    requires Inv(s) && Enabled(s, a) && IsSweep(a)
    ensures Inv(Apply(s, a))
  {
    SweepKeepsOwnKeys(s, a);
    SweepKeepsBump(s, a);
    WriterMoveKeepsInv(s, Apply(s, a), a.w);
  }

  lemma StepKeepsInv(s: State, a: Action)
    requires Inv(s) && Enabled(s, a)
    ensures Inv(Apply(s, a))
  {
    if IsSweep(a) {
      SweepStepKeepsInv(s, a);
    } else if IsReaderMove(a) {
      ReaderStepKeepsInv(s, a);
    } else {
      match a
      case SetPipeline(r) => SetKeepsInv(s, r);
      case BumpEpoch(w) => BumpKeepsInv(s, w);
      case Evict(keys) => EvictKeepsInv(s, keys);
      case _ => WriterStepKeepsInv(s, a);
    }
  }

  lemma {:induction false} RunKeepsInv(s: State, actions: seq<Action>, t: State)
    requires Inv(s) && Runs(s, actions, t)
    ensures Inv(t)
    decreases |actions|
  {
    if actions != [] {
      StepKeepsInv(s, actions[0]);
      RunKeepsInv(Apply(s, actions[0]), actions[1..], t);
    }
  }

  /** Exact-key invalidation, over every interleaving of readers, writers, failures and evictions: once a writer's
      purge has finished, none of its keys holds a value computed from a read made before its commit, unless the
      reader that stored it is between its SET and its own drop, or that drop raised. */
  lemma ExactKeysAreCoherent(prefix: string, actions: seq<Action>, s: State, w: Id, k: Key)
    requires Runs(Initial(prefix), actions, s)
    requires w in s.writers && s.writers[w].Finished? && k in s.writers[w].keys
    requires k in s.data && s.data[k].version < s.writers[w].version
    ensures var owner := s.data[k].owner;
            owner in s.readers && s.readers[owner].key == k &&
            (s.readers[owner].MustDrop? || s.readers[owner].DropFailed?)
  {
    RunKeepsInv(Initial(prefix), actions, s);
    assert KeysCoherent(s, s.writers[w]) && EntryOk(s, k, s.data[k]);
  }

  /** The same for a full flush: once it has finished, no key under the prefix holds such a value. */
  lemma FlushIsCoherent(prefix: string, actions: seq<Action>, s: State, w: Id, k: Key)
    requires Runs(Initial(prefix), actions, s)
    requires w in s.writers && s.writers[w].Flushed? && s.prefix + ":" <= k && k != s.prefix + ":__epoch"
    requires k in s.data && s.data[k].version < s.writers[w].version
    ensures var owner := s.data[k].owner;
            owner in s.readers && s.readers[owner].key == k &&
            (s.readers[owner].MustDrop? || s.readers[owner].DropFailed?)
  {
    RunKeepsInv(Initial(prefix), actions, s);
    assert KeysCoherent(s, s.writers[w]) && EntryOk(s, k, s.data[k]);
  }

  // ----- Namespaces -----

  /** Keys that a running purge has unlinked and has yet to take out of an index. */
  function Danger(job: Job): set<Key> {
    job.gap + if job.also == [] then {} else job.removed
  }

  ghost predicate InDanger(s: State, k: Key) {
    || (exists r :: r in s.readers && s.readers[r].Flushing? && k in Danger(s.readers[r].job))
    || (exists w :: w in s.writers && s.writers[w].Purging? && k in Danger(s.writers[w].job))
  }

  /** A running full flush is going to unlink `k`. */
  ghost predicate Doomed(s: State, k: Key) {
    exists w :: w in s.writers && s.writers[w].Sweeping? && k in s.writers[w].must
  }

  ghost predicate Excused(s: State, k: Key)
    requires k in s.data
  {
    Unsettled(s, s.data[k]) || Doomed(s, k)
  }

  /** `k` holds a value that its reader is not about to drop, nor failed to, and that no flush is going to unlink. */
  ghost predicate Settled(s: State, k: Key) {
    k in s.data && !Excused(s, k)
  }

  /** No SET that settles its key falls between the UNLINK of that key and the SREMs that follow it in a running purge;
      a SET that finds another epoch, or whose key a flush is going to unlink, may fall anywhere. A full flush takes no
      index set away from a settled key. A full flush may fail, unless a key that it was going to unlink becomes settled
      by that and is missing from an index or in the gap of a purge. */
  ghost predicate GapFree(s: State, a: Action)
    requires Enabled(s, a)
  {
    && (a.SetPipeline? && Settled(Apply(s, a), s.readers[a.r].key) ==> !InDanger(s, s.readers[a.r].key))
    && (a.FailPurge? ==> ReleasesListed(s, Apply(s, a)))
    && (a.SweepUnlink? ==> KeepsIndexes(s.prefix, Apply(s, a), a.names))
  }

  /** `k` is in every index set it belongs to. */
  ghost predicate Listed(s: State, k: Key) {
    forall n :: n in IndexNames(s.prefix, k) ==> k in Members(s.index, n)
  }

  ghost predicate ReleasesListed(s: State, t: State) {
    forall k :: Settled(t, k) && !Settled(s, k) ==> Listed(t, k) && !InDanger(s, k)
  }

  ghost predicate KeepsIndexes(prefix: string, t: State, names: set<string>) {
    forall k, n :: Settled(t, k) && n in IndexNames(prefix, k) ==> n !in names
  }

  ghost predicate GapFreeRuns(s: State, actions: seq<Action>, t: State)
    decreases |actions|
  {
    if actions == [] then s == t
    else Enabled(s, actions[0]) && GapFree(s, actions[0]) && GapFreeRuns(Apply(s, actions[0]), actions[1..], t)
  }

  /** Every settled key is in every index set it belongs to. */
  ghost predicate Indexed(s: State) {
    forall k, n :: Settled(s, k) && n in IndexNames(s.prefix, k) ==> k in Members(s.index, n)
  }

  ghost predicate Harmless(s: State, job: Job) {
    forall k :: k in Danger(job) ==> !Settled(s, k)
  }

  ghost predicate ReaderJobOk(s: State, r: Reader) {
    r.Flushing? ==> r.job.also == [] && Harmless(s, r.job)
  }

  ghost predicate WriterJobOk(s: State, w: Writer) {
    w.Purging? ==> w.done < |w.namespaces| && Harmless(s, w.job)
  }

  /** A purge may leave `k`: its reader is about to drop it or failed to, or a flush is about to unlink it and has taken
      an index set away from it. */
  ghost predicate Missed(s: State, k: Key)
    requires k in s.data
  {
    Unsettled(s, s.data[k]) || (Doomed(s, k) && !Listed(s, k))
  }

  /** How many namespaces the writer has purged. */
  function Purged(w: Writer): nat {
    match w
    case Committed(_, _, _) => 0
    case Bumped(_, _, _, _, done) => done
    case Purging(_, _, _, _, done, _) => done
    case Finished(_, namespaces, _, _) => |namespaces|
    case _ => 0
  }

  ghost predicate NamespacesCoherent(s: State, w: Writer) {
    && Purged(w) <= |w.namespaces|
    && (forall i, k ::
          0 <= i < Purged(w) && k in s.data && Under(s.prefix, w.namespaces[i], k) && Stale(s.data[k], w) ==>
            Missed(s, k))
    && (w.Purging? && w.done < |w.namespaces| ==>
          forall k :: k in s.data && Under(s.prefix, w.namespaces[w.done], k) && Stale(s.data[k], w) ==>
            Missed(s, k) || k in w.job.todo)
  }

  ghost predicate NsInv(s: State) {
    && Inv(s) && Indexed(s)
    && (forall r :: r in s.readers ==> ReaderJobOk(s, s.readers[r]))
    && (forall w :: w in s.writers ==> WriterJobOk(s, s.writers[w]) && NamespacesCoherent(s, s.writers[w]))
  }

  /** A SET takes no excuse away but its own key's, which it renews if it finds another epoch. */
  lemma SetKeepsMissed(s: State, r: Id)
    requires r in s.readers && s.readers[r].Computed? && (forall k :: k in s.data ==> EntryOk(s, k, s.data[k]))
    ensures forall k :: k in s.data && k != s.readers[r].key && Missed(s, k) ==> Missed(Store(s, r), k)
    ensures s.readers[r].epoch != s.epoch ==> Missed(Store(s, r), s.readers[r].key)
  {
    var t := Store(s, r);
    forall k | k in s.data && k != s.readers[r].key && Missed(s, k) ensures Missed(t, k) {
      assert EntryOk(s, k, s.data[k]);
      assert Doomed(s, k) == Doomed(t, k);
      assert Listed(t, k) ==> Listed(s, k);
    }
  }

  lemma SetKeepsNamespacesCoherent(s: State, r: Id, w: Writer)
    requires r in s.readers && s.readers[r].Computed? && (forall k :: k in s.data ==> EntryOk(s, k, s.data[k]))
    requires NamespacesCoherent(s, w)
    requires HasBumped(w) && s.readers[r].version < w.version ==> s.epoch != s.readers[r].epoch
    ensures NamespacesCoherent(Store(s, r), w)
  {
    SetKeepsMissed(s, r);
  }

  /** A SET settles no key but its own, and its own only if it finds the epoch unchanged. */
  lemma SetSettles(s: State, r: Id)
    requires r in s.readers && s.readers[r].Computed? && (forall k :: k in s.data ==> EntryOk(s, k, s.data[k]))
    ensures forall k :: Settled(Store(s, r), k) && k != s.readers[r].key ==> Settled(s, k)
    ensures Settled(Store(s, r), s.readers[r].key) ==> s.readers[r].epoch == s.epoch
  {
    var t := Store(s, r);
    forall k | Settled(t, k) && k != s.readers[r].key ensures Settled(s, k) {
      assert EntryOk(s, k, s.data[k]);
      assert Doomed(s, k) == Doomed(t, k);
    }
  }

  lemma SetKeepsIndexed(s: State, r: Id)
    requires r in s.readers && s.readers[r].Computed? && (forall k :: k in s.data ==> EntryOk(s, k, s.data[k]))
    requires Indexed(s)
    ensures Indexed(Store(s, r))
  {
    SetSettles(s, r);
  }

  lemma SetKeepsHarmless(s: State, r: Id, job: Job)
    requires r in s.readers && s.readers[r].Computed? && (forall k :: k in s.data ==> EntryOk(s, k, s.data[k]))
    requires Harmless(s, job) && (Settled(Store(s, r), s.readers[r].key) ==> s.readers[r].key !in Danger(job))
    ensures Harmless(Store(s, r), job)
  {
    SetSettles(s, r);
  }

  lemma SetKeepsJobs(s: State, r: Id)
    requires NsInv(s) && Enabled(s, SetPipeline(r)) && GapFree(s, SetPipeline(r))
    ensures forall w :: w in s.writers ==> WriterJobOk(Store(s, r), s.writers[w])
    ensures forall q :: q in Store(s, r).readers ==> ReaderJobOk(Store(s, r), Store(s, r).readers[q])
  {
    assert Apply(s, SetPipeline(r)) == Store(s, r);
    forall w | w in s.writers ensures WriterJobOk(Store(s, r), s.writers[w]) {
      assert WriterJobOk(s, s.writers[w]);
      if s.writers[w].Purging? {
        SetKeepsHarmless(s, r, s.writers[w].job);
      }
    }
    forall q | q in Store(s, r).readers ensures ReaderJobOk(Store(s, r), Store(s, r).readers[q]) {
      assert ReaderJobOk(s, s.readers[q]);
      if q != r && s.readers[q].Flushing? {
        SetKeepsHarmless(s, r, s.readers[q].job);
      }
    }
  }

  lemma SetKeepsAllNamespaces(s: State, r: Id)
    requires NsInv(s) && Enabled(s, SetPipeline(r))
    ensures forall w :: w in s.writers ==> NamespacesCoherent(Store(s, r), s.writers[w])
  {
    forall w | w in s.writers ensures NamespacesCoherent(Store(s, r), s.writers[w]) {
      if HasBumped(s.writers[w]) && s.readers[r].version < s.writers[w].version {
        StaleSetIsCaught(s, r, w);
      }
      SetKeepsNamespacesCoherent(s, r, s.writers[w]);
    }
  }

  lemma SetKeepsNsInv(s: State, r: Id)
    requires NsInv(s) && Enabled(s, SetPipeline(r)) && GapFree(s, SetPipeline(r))
    ensures NsInv(Store(s, r))
  {
    SetKeepsInv(s, r);
    SetKeepsIndexed(s, r);
    SetKeepsJobs(s, r);
    SetKeepsAllNamespaces(s, r);
  }

  /** The data shrinks, the indexes lose only keys that are not live, and no value loses its owner's mark. */
  ghost predicate Tidies(s: State, t: State) {
    && Shrinks(s, t) && t.prefix == s.prefix
    && (forall k, n :: Settled(t, k) && k in Members(s.index, n) && n in IndexNames(s.prefix, k) ==>
          k in Members(t.index, n))
    && (forall k :: k in t.data && Missed(s, k) ==> Missed(t, k))
    && ReleasesListed(s, t)
  }

  /** The index sets only lose members. */
  ghost predicate Narrows(s: State, t: State) {
    t.prefix == s.prefix && forall n :: Members(t.index, n) <= Members(s.index, n)
  }

  /** No live key is doomed less, and no mark is lost: no key gets settled, and none that was missed gets found. */
  lemma MarksKeepSettled(s: State, t: State)
    requires Shrinks(s, t) && Narrows(s, t)
    requires forall k :: k in t.data && Unsettled(s, s.data[k]) ==> Unsettled(t, t.data[k])
    requires forall k :: k in t.data && Doomed(s, k) ==> Doomed(t, k)
    ensures forall k :: k in t.data && Missed(s, k) ==> Missed(t, k)
    ensures forall k :: Settled(t, k) ==> Settled(s, k)
  {
    forall k | k in t.data && Missed(s, k) ensures Missed(t, k) {
      assert Listed(t, k) ==> Listed(s, k);
    }
  }

  /** A writer step leaves the excuses of live keys alone if it does not cut a sweep short. */
  lemma WriterKeepsSettled(s: State, t: State, w: Id)
    requires Shrinks(s, t) && Narrows(s, t)
    requires t.readers == s.readers && w in t.writers && t.writers == s.writers[w := t.writers[w]]
    requires w in s.writers && s.writers[w].Sweeping? ==>
               s.writers[w].must * t.data.Keys == {} ||
               (t.writers[w].Sweeping? && s.writers[w].must * t.data.Keys <= t.writers[w].must)
    ensures forall k :: k in t.data && Missed(s, k) ==> Missed(t, k)
    ensures forall k :: Settled(t, k) ==> Settled(s, k)
  {
    forall k | k in t.data && Doomed(s, k) ensures Doomed(t, k) {
      var v :| v in s.writers && s.writers[v].Sweeping? && k in s.writers[v].must;
      assert k in s.writers[v].must * t.data.Keys;
      assert v in t.writers && t.writers[v].Sweeping? && k in t.writers[v].must;
    }
    MarksKeepSettled(s, t);
  }

  lemma TidyKeepsNamespacesCoherent(s: State, t: State, w: Writer)
    requires Tidies(s, t) && NamespacesCoherent(s, w)
    ensures NamespacesCoherent(t, w)
  {
  }

  lemma TidyKeepsJobs(s: State, t: State)
    requires Tidies(s, t)
    ensures forall r :: r in s.readers && ReaderJobOk(s, s.readers[r]) ==> ReaderJobOk(t, s.readers[r])
    ensures forall w :: w in s.writers && WriterJobOk(s, s.writers[w]) ==> WriterJobOk(t, s.writers[w])
  {
    forall r | r in s.readers && ReaderJobOk(s, s.readers[r]) && s.readers[r].Flushing?
      ensures Harmless(t, s.readers[r].job)
    {
      assert forall k :: k in Danger(s.readers[r].job) ==> InDanger(s, k);
    }
    forall w | w in s.writers && WriterJobOk(s, s.writers[w]) && s.writers[w].Purging?
      ensures Harmless(t, s.writers[w].job)
    {
      assert forall k :: k in Danger(s.writers[w].job) ==> InDanger(s, k);
    }
  }

  lemma ReaderTidies(s: State, t: State, r: Id)
    requires NsInv(s) && Inv(t) && Tidies(s, t) && t.writers == s.writers
    requires r in t.readers && t.readers == s.readers[r := t.readers[r]] && ReaderJobOk(t, t.readers[r])
    ensures NsInv(t)
  {
    TidyKeepsJobs(s, t);
    forall w | w in t.writers ensures NamespacesCoherent(t, t.writers[w]) {
      TidyKeepsNamespacesCoherent(s, t, s.writers[w]);
    }
  }

  lemma WriterTidies(s: State, t: State, w: Id)
    requires NsInv(s) && Inv(t) && Tidies(s, t) && t.readers == s.readers
    requires w in t.writers && t.writers == s.writers[w := t.writers[w]]
    requires WriterJobOk(t, t.writers[w]) && NamespacesCoherent(t, t.writers[w])
    ensures NsInv(t)
  {
    TidyKeepsJobs(s, t);
    forall v | v in t.writers ensures NamespacesCoherent(t, t.writers[v]) {
      if v != w {
        TidyKeepsNamespacesCoherent(s, t, s.writers[v]);
      }
    }
  }

  /** A reader step other than the SET takes no mark from a live value. */
  lemma ReaderStepKeepsMarks(s: State, a: Action)
    requires (forall k :: k in s.data ==> EntryOk(s, k, s.data[k])) && Enabled(s, a) && IsReaderMove(a)
    ensures Shrinks(s, Apply(s, a)) && Narrows(s, Apply(s, a))
    ensures forall k :: k in Apply(s, a).data && Missed(s, k) ==> Missed(Apply(s, a), k)
    ensures forall k :: Settled(Apply(s, a), k) ==> Settled(s, k)
  {
    var t := Apply(s, a);
    forall k | k in t.data && Unsettled(s, s.data[k]) ensures Unsettled(t, t.data[k]) {
      assert EntryOk(s, k, s.data[k]);
    }
    MarksKeepSettled(s, t);
  }

  lemma ReaderStepTidies(s: State, a: Action)
    requires Indexed(s) && (forall k :: k in s.data ==> EntryOk(s, k, s.data[k])) && Enabled(s, a)
    requires IsReaderMove(a)
    requires a.Miss? || ReaderJobOk(s, s.readers[a.r])
    ensures Tidies(s, Apply(s, a)) && ReaderJobOk(Apply(s, a), Apply(s, a).readers[a.r])
  {
    ReaderStepKeepsMarks(s, a);
  }

  lemma ReaderStepKeepsNsInv(s: State, a: Action)
    requires NsInv(s) && Enabled(s, a)
    requires IsReaderMove(a)
    ensures NsInv(Apply(s, a))
  {
    ReaderStepKeepsInv(s, a);
    ReaderStepTidies(s, a);
    ReaderTidies(s, Apply(s, a), a.r);
  }

  /** When a purge reads its index, every live key of the namespace that is not excused is among the members it will
      delete. */
  lemma StartedPurgeSeesNamespace(s: State, namespace: string, k: Key)
    requires Indexed(s) && k in s.data && Under(s.prefix, namespace, k)
    ensures Missed(s, k) || k in StartJob(s, namespace).todo
  {
    IndexSelectsNamespace(s.prefix, namespace, k);
    assert k !in StartJob(s, namespace).todo ==> !Listed(s, k);
  }

  ghost predicate WriterReady(s: State, w: Writer) {
    Indexed(s) && WriterJobOk(s, w) && NamespacesCoherent(s, w)
  }

  ghost predicate WriterTidied(s: State, t: State, w: Id)
    requires w in t.writers
  {
    Tidies(s, t) && WriterJobOk(t, t.writers[w]) && NamespacesCoherent(t, t.writers[w])
  }

  lemma StartPurgeTidies(s: State, w: Id)
    requires w in s.writers && WriterReady(s, s.writers[w]) && Enabled(s, StartPurge(w))
    ensures WriterTidied(s, Apply(s, StartPurge(w)), w)
  {
    var c := s.writers[w];
    WriterKeepsSettled(s, Apply(s, StartPurge(w)), w);
    forall k | k in s.data && Under(s.prefix, c.namespaces[c.done], k)
      ensures Missed(s, k) || k in StartJob(s, c.namespaces[c.done]).todo
    {
      StartedPurgeSeesNamespace(s, c.namespaces[c.done], k);
    }
  }

  lemma UnlinkTidies(s: State, w: Id, chunk: set<Key>)
    requires w in s.writers && WriterReady(s, s.writers[w]) && Enabled(s, PurgeUnlink(w, chunk))
    ensures WriterTidied(s, Apply(s, PurgeUnlink(w, chunk)), w)
  {
    WriterKeepsSettled(s, Apply(s, PurgeUnlink(w, chunk)), w);
  }

  lemma SremTidies(s: State, w: Id)
    requires w in s.writers && WriterReady(s, s.writers[w]) && Enabled(s, PurgeSrem(w))
    ensures WriterTidied(s, Apply(s, PurgeSrem(w)), w)
  {
    WriterKeepsSettled(s, Apply(s, PurgeSrem(w)), w);
  }

  lemma EndPurgeNarrows(s: State, w: Id)
    requires Enabled(s, EndPurge(w))
    ensures Narrows(s, Apply(s, EndPurge(w)))
    ensures forall k, n :: k in Members(s.index, n) && k !in Danger(s.writers[w].job) ==>
              k in Members(Apply(s, EndPurge(w)).index, n)
  {
  }

  lemma EndPurgeTidies(s: State, w: Id)
    requires w in s.writers && WriterReady(s, s.writers[w]) && Enabled(s, EndPurge(w))
    ensures WriterTidied(s, Apply(s, EndPurge(w)), w)
  {
    EndPurgeNarrows(s, w);
    WriterKeepsSettled(s, Apply(s, EndPurge(w)), w);
  }

  lemma DropKeysTidies(s: State, w: Id)
    requires w in s.writers && WriterReady(s, s.writers[w]) && Enabled(s, DropKeys(w))
    ensures WriterTidied(s, Apply(s, DropKeys(w)), w)
  {
    WriterKeepsSettled(s, Apply(s, DropKeys(w)), w);
  }

  predicate IsPurge(a: Action) {
    a.StartPurge? || a.PurgeUnlink? || a.PurgeSrem? || a.EndPurge? || a.DropKeys?
  }

  lemma PurgeStepTidies(s: State, a: Action)
    requires Enabled(s, a) && IsPurge(a) && WriterReady(s, s.writers[a.w])
    ensures WriterTidied(s, Apply(s, a), a.w)
  {
    match a {
      case StartPurge(w) => StartPurgeTidies(s, w);
      case PurgeUnlink(w, chunk) => UnlinkTidies(s, w, chunk);
      case PurgeSrem(w) => SremTidies(s, w);
      case EndPurge(w) => EndPurgeTidies(s, w);
      case DropKeys(w) => DropKeysTidies(s, w);
    }
  }

  lemma PurgeStepKeepsNsInv(s: State, a: Action)
    requires NsInv(s) && Enabled(s, a) && IsPurge(a)
    ensures NsInv(Apply(s, a))
  {
    WriterStepKeepsInv(s, a);
    assert WriterReady(s, s.writers[a.w]);
    PurgeStepTidies(s, a);
    WriterTidies(s, Apply(s, a), a.w);
  }

  lemma CommitKeepsNsInv(s: State, a: Action)
    requires NsInv(s) && Enabled(s, a) && a.Commit?
    ensures NsInv(Apply(s, a))
  {
    WriterStepKeepsInv(s, a);
    WriterKeepsSettled(s, Apply(s, a), a.w);
    WriterTidies(s, Apply(s, a), a.w);
  }

  lemma FailTidies(s: State, a: Action)
    requires Indexed(s) && Enabled(s, a) && GapFree(s, a) && a.FailPurge?
    ensures Tidies(s, Apply(s, a))
  {
    var t := Apply(s, a);
    forall k | k in t.data && Missed(s, k) ensures Missed(t, k) {
      assert Listed(t, k) == Listed(s, k);
      assert Settled(t, k) && !Settled(s, k) ==> Listed(t, k);
    }
  }

  lemma FailKeepsNsInv(s: State, a: Action)
    requires NsInv(s) && Enabled(s, a) && GapFree(s, a) && a.FailPurge?
    ensures NsInv(Apply(s, a))
  {
    WriterStepKeepsInv(s, a);
    FailTidies(s, a);
    WriterTidies(s, Apply(s, a), a.w);
  }

  lemma BumpKeepsNsInv(s: State, w: Id)
    requires NsInv(s) && Enabled(s, BumpEpoch(w))
    ensures NsInv(Apply(s, BumpEpoch(w)))
  {
    BumpKeepsInv(s, w);
    WriterKeepsSettled(s, Apply(s, BumpEpoch(w)), w);
    WriterTidies(s, Apply(s, BumpEpoch(w)), w);
  }

  lemma SweepTidies(s: State, a: Action)
    requires Indexed(s) && Enabled(s, a) && IsSweep(a) && GapFree(s, a)
    ensures Tidies(s, Apply(s, a))
  {
    WriterKeepsSettled(s, Apply(s, a), a.w);
  }

  /** A writer that flushes everything purges no namespace. */
  lemma SweepPurgesNothing(s: State, a: Action)
    requires Enabled(s, a) && IsSweep(a)
    ensures WriterJobOk(Apply(s, a), Apply(s, a).writers[a.w])
    ensures NamespacesCoherent(Apply(s, a), Apply(s, a).writers[a.w])
  {
  }

  lemma SweepKeepsNsInv(s: State, a: Action)
    requires NsInv(s) && Enabled(s, a) && IsSweep(a) && GapFree(s, a)
    ensures NsInv(Apply(s, a))
  {
    SweepStepKeepsInv(s, a);
    SweepTidies(s, a);
    SweepPurgesNothing(s, a);
    WriterTidies(s, Apply(s, a), a.w);
  }

  lemma EvictKeepsNsInv(s: State, keys: set<Key>)
    requires NsInv(s)
    ensures NsInv(Apply(s, Evict(keys)))
  {
    var t := Apply(s, Evict(keys));
    EvictKeepsInv(s, keys);
    MarksKeepSettled(s, t);
    TidyKeepsJobs(s, t);
    forall w | w in t.writers ensures NamespacesCoherent(t, t.writers[w]) {
      TidyKeepsNamespacesCoherent(s, t, s.writers[w]);
    }
  }

  lemma StepKeepsNsInv(s: State, a: Action)
    requires NsInv(s) && Enabled(s, a) && GapFree(s, a)
    ensures NsInv(Apply(s, a))
  {
    if IsPurge(a) {
      PurgeStepKeepsNsInv(s, a);
    } else if IsSweep(a) {
      SweepKeepsNsInv(s, a);
    } else {
      match a
      case SetPipeline(r) => SetKeepsNsInv(s, r);
      case Commit(_, _, _) => CommitKeepsNsInv(s, a);
      case BumpEpoch(w) => BumpKeepsNsInv(s, w);
      case FailPurge(_) => FailKeepsNsInv(s, a);
      case Evict(keys) => EvictKeepsNsInv(s, keys);
      case _ => ReaderStepKeepsNsInv(s, a);
    }
  }

  lemma {:induction false} RunKeepsNsInv(s: State, actions: seq<Action>, t: State)
    requires NsInv(s) && GapFreeRuns(s, actions, t)
    ensures NsInv(t)
    decreases |actions|
  {
    if actions != [] {
      StepKeepsNsInv(s, actions[0]);
      RunKeepsNsInv(Apply(s, actions[0]), actions[1..], t);
    }
  }

  lemma FinishedPurgeIsCoherent(s: State, w: Id, i: nat, k: Key)
    requires NsInv(s) && w in s.writers && s.writers[w].Finished? && i < |s.writers[w].namespaces|
    requires k in s.data && Under(s.prefix, s.writers[w].namespaces[i], k) && Stale(s.data[k], s.writers[w])
    ensures EntryOk(s, k, s.data[k]) && Missed(s, k)
  {
    assert NamespacesCoherent(s, s.writers[w]) && Purged(s.writers[w]) == |s.writers[w].namespaces|;
  }

  /** Namespace invalidation, over every gap-free interleaving: once a writer's purge has finished, no key under any of
      its namespaces holds a value computed from a read made before its commit, with the same exception, or a running
      full flush is going to unlink it and has already taken an index set away from it. */
  lemma NamespacesAreCoherent(prefix: string, actions: seq<Action>, s: State, w: Id, i: nat, k: Key)
    requires GapFreeRuns(Initial(prefix), actions, s)
    requires w in s.writers && s.writers[w].Finished? && i < |s.writers[w].namespaces|
    requires k in s.data && Under(s.prefix, s.writers[w].namespaces[i], k) && s.data[k].version < s.writers[w].version
    ensures var owner := s.data[k].owner;
            owner in s.readers && s.readers[owner].key == k &&
            (s.readers[owner].MustDrop? || s.readers[owner].DropFailed? || (Doomed(s, k) && !Listed(s, k)))
  {
    RunKeepsNsInv(Initial(prefix), actions, s);
    FinishedPurgeIsCoherent(s, w, i, k);
  }

  /** In the same runs every live key is in all its indexes, with the same exceptions. */
  lemma SettledKeysAreIndexed(prefix: string, actions: seq<Action>, s: State, k: Key, n: string)
    requires GapFreeRuns(Initial(prefix), actions, s)
    requires Settled(s, k) && n in IndexNames(s.prefix, k)
    ensures k in Members(s.index, n)
  {
    RunKeepsNsInv(Initial(prefix), actions, s);
  }
}
