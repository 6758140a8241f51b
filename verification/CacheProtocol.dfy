/** The cache-aside protocol as a state machine: readers take an epoch, read the database and store
    (app/core/cache/decorator.py); writers commit, bump the epoch and purge (app/core/base/transaction.py,
    app/core/cache/client.py). Every Redis command is one step and every `pipeline(transaction=True)` is one step. */
module CacheProtocol {
  import opened CacheIndex
  import opened CacheKeys

  type Key = string
  type Id = nat

  /** A cached value, known by the database version it was computed from and the reader call that stored it. */
  datatype Entry = Entry(version: nat, owner: Id)

  /** A running `_purge_index`: members still to delete, the chunk unlinked but not yet out of the index, and the
      keys already out of it. `also` lists the top index that `_purge_namespace` clears last. */
  datatype Job = Job(index: string, also: seq<string>, todo: set<Key>, gap: set<Key>, removed: set<Key>)

  datatype Reader =
    | Looking(key: Key)                                             // missed; before cache_epoch
    | Reading(key: Key, epoch: nat)                                 // before the database read
    | Computed(key: Key, epoch: nat, version: nat)                  // before the SET pipeline
    | MustDrop(key: Key, epoch: nat, version: nat)                  // the pipeline saw another epoch
    | DropFailed(key: Key, epoch: nat, version: nat)                // its own drop raised
    | Stored(key: Key, epoch: nat, version: nat)                    // the pipeline saw the same epoch
    | Flushing(key: Key, epoch: nat, version: nat, job: Job)        // its index overflowed
    | Dropped(key: Key)

  /** A full flush scans the names under the prefix and unlinks them in chunks. SCAN promises to return the names that
      are there from its start to its end: `must` are those of them still to come, and a chunk may hold others. */
  datatype Writer =
    | Committed(version: nat, namespaces: seq<string>, keys: set<Key>)
    | Bumped(version: nat, namespaces: seq<string>, keys: set<Key>, bump: nat, done: nat)
    | Purging(version: nat, namespaces: seq<string>, keys: set<Key>, bump: nat, done: nat, job: Job)
    | Finished(version: nat, namespaces: seq<string>, keys: set<Key>, bump: nat)
    | Sweeping(version: nat, namespaces: seq<string>, keys: set<Key>, bump: nat, must: set<string>)
    | Flushed(version: nat, namespaces: seq<string>, keys: set<Key>, bump: nat)

  /** `db` counts commits, `epoch` is the counter under `<prefix>:__epoch` (0 while the key is missing). */
  datatype State = State(
    prefix: string,
    db: nat,
    epoch: nat,
    data: map<Key, Entry>,
    index: Index,
    readers: map<Id, Reader>,
    writers: map<Id, Writer>)

  datatype Action =
    | Miss(r: Id, key: Key)
    | TakeEpoch(r: Id)
    | ReadDatabase(r: Id)
    | SetPipeline(r: Id)
    | DropOwn(r: Id)
    | FailDrop(r: Id)
    | StartFlush(r: Id)
    | FlushUnlink(r: Id, chunk: set<Key>)
    | FlushSrem(r: Id)
    | EndFlush(r: Id)
    | Commit(w: Id, namespaces: seq<string>, keys: set<Key>)
    | BumpEpoch(w: Id)
    | StartPurge(w: Id)
    | PurgeUnlink(w: Id, chunk: set<Key>)
    | PurgeSrem(w: Id)
    | EndPurge(w: Id)
    | DropKeys(w: Id)
    | FailPurge(w: Id)
    | StartSweep(w: Id)
    | SweepUnlink(w: Id, names: set<string>)
    | SweepMiss(w: Id, names: set<string>)
    | EndSweep(w: Id)
    | Evict(keys: set<Key>)

  // ----- Redis -----

  function Srem(index: Index, name: string, keys: set<Key>): Index {
    index[name := Members(index, name) - keys]
  }

  function SremAll(index: Index, names: seq<string>, keys: set<Key>): (r: Index)
    ensures forall n :: Members(r, n) == if n in names then Members(index, n) - keys else Members(index, n)
    decreases |names|
  {
    if names == [] then index else SremAll(Srem(index, names[0], keys), names[1..], keys)
  }

  /** The atomic `_drop_keys`: the keys leave the data and every index they belong to. */
  function DropAll(s: State, keys: set<Key>): State {
    s.(data := s.data - keys, index := Unindexed(s.prefix, s.index, keys))
  }

  // ----- Steps -----

  predicate Enabled(s: State, a: Action) {
    match a
    case Miss(r, key) => r !in s.readers
    case TakeEpoch(r) => r in s.readers && s.readers[r].Looking?
    case ReadDatabase(r) => r in s.readers && s.readers[r].Reading?
    case SetPipeline(r) => r in s.readers && s.readers[r].Computed?
    case DropOwn(r) => r in s.readers && s.readers[r].MustDrop?
    case FailDrop(r) => r in s.readers && s.readers[r].MustDrop?
    case StartFlush(r) => r in s.readers && s.readers[r].Stored? && IndexNames(s.prefix, s.readers[r].key) != []
    case FlushUnlink(r, chunk) => r in s.readers && s.readers[r].Flushing? && UnlinkEnabled(s.readers[r].job, chunk)
    case FlushSrem(r) => r in s.readers && s.readers[r].Flushing?
    case EndFlush(r) => r in s.readers && s.readers[r].Flushing?
    case Commit(w, namespaces, keys) => w !in s.writers
    case BumpEpoch(w) => w in s.writers && s.writers[w].Committed?
    case StartPurge(w) => w in s.writers && s.writers[w].Bumped? && s.writers[w].done < |s.writers[w].namespaces|
    case PurgeUnlink(w, chunk) => w in s.writers && s.writers[w].Purging? && UnlinkEnabled(s.writers[w].job, chunk)
    case PurgeSrem(w) => w in s.writers && s.writers[w].Purging?
    case EndPurge(w) => w in s.writers && s.writers[w].Purging? && s.writers[w].job.todo == s.writers[w].job.gap == {}
    case DropKeys(w) => w in s.writers && s.writers[w].Bumped? && s.writers[w].done == |s.writers[w].namespaces|
    case FailPurge(w) =>
      w in s.writers && (s.writers[w].Bumped? || s.writers[w].Purging? || s.writers[w].Sweeping?)
    case StartSweep(w) => w in s.writers && s.writers[w].Bumped? && s.writers[w].done == 0
    case SweepUnlink(w, names) =>
      w in s.writers && s.writers[w].Sweeping? && forall n :: n in names ==> Swept(s.prefix, n)
    case SweepMiss(w, names) => w in s.writers && s.writers[w].Sweeping? && names !! s.data.Keys + s.index.Keys
    case EndSweep(w) => w in s.writers && s.writers[w].Sweeping? && s.writers[w].must == {}
    case Evict(keys) => true
  }

  /** The names that a full flush deletes: all under the prefix but the epoch counter. */
  predicate Swept(prefix: string, name: string) {
    prefix + ":" <= name && name != prefix + ":__epoch"
  }

  predicate UnlinkEnabled(job: Job, chunk: set<Key>) {
    job.gap == {} && chunk <= job.todo
  }

  function Unlinked(job: Job, chunk: set<Key>): Job {
    job.(todo := job.todo - chunk, gap := chunk)
  }

  function Sremmed(job: Job): Job {
    job.(gap := {}, removed := job.removed + job.gap)
  }

  function StartJob(s: State, namespace: string): Job {
    var name := PurgedIndex(s.prefix, namespace);
    Job(name, AlsoCleared(s.prefix, namespace),
        set k | k in Members(s.index, name) && Selected(s.prefix, namespace, k), {}, {})
  }

  function Store(s: State, r: Id): State
    requires r in s.readers && s.readers[r].Computed?
  {
    var c := s.readers[r];
    s.(data := s.data[c.key := Entry(c.version, r)],
       index := Added(s.index, IndexNames(s.prefix, c.key), c.key),
       readers := s.readers[r := if s.epoch == c.epoch then Stored(c.key, c.epoch, c.version)
                                 else MustDrop(c.key, c.epoch, c.version)])
  }

  function Apply(s: State, a: Action): (t: State)
    requires Enabled(s, a)
  {
    match a
    case Miss(r, key) => s.(readers := s.readers[r := Looking(key)])
    case TakeEpoch(r) => s.(readers := s.readers[r := Reading(s.readers[r].key, s.epoch)])
    case ReadDatabase(r) => s.(readers := s.readers[r := Computed(s.readers[r].key, s.readers[r].epoch, s.db)])
    case SetPipeline(r) => Store(s, r)
    case DropOwn(r) => DropAll(s, {s.readers[r].key}).(readers := s.readers[r := Dropped(s.readers[r].key)])
    case FailDrop(r) =>
      var c := s.readers[r];
      s.(readers := s.readers[r := DropFailed(c.key, c.epoch, c.version)])
    case StartFlush(r) =>
      var c := s.readers[r];
      var name := IndexNames(s.prefix, c.key)[0];
      s.(readers := s.readers[r := Flushing(c.key, c.epoch, c.version, Job(name, [], Members(s.index, name), {}, {}))])
    case FlushUnlink(r, chunk) =>
      var c := s.readers[r];
      s.(data := s.data - chunk, readers := s.readers[r := c.(job := Unlinked(c.job, chunk))])
    case FlushSrem(r) =>
      var c := s.readers[r];
      s.(index := Srem(s.index, c.job.index, c.job.gap), readers := s.readers[r := c.(job := Sremmed(c.job))])
    case EndFlush(r) =>
      var c := s.readers[r];
      s.(readers := s.readers[r := Stored(c.key, c.epoch, c.version)])
    case Commit(w, namespaces, keys) =>
      s.(db := s.db + 1, writers := s.writers[w := Committed(s.db + 1, namespaces, keys)])
    case BumpEpoch(w) =>
      var c := s.writers[w];
      s.(epoch := s.epoch + 1, writers := s.writers[w := Bumped(c.version, c.namespaces, c.keys, s.epoch + 1, 0)])
    case StartPurge(w) =>
      var c := s.writers[w];
      s.(writers := s.writers[w := Purging(c.version, c.namespaces, c.keys, c.bump, c.done,
                                           StartJob(s, c.namespaces[c.done]))])
    case PurgeUnlink(w, chunk) =>
      var c := s.writers[w];
      s.(data := s.data - chunk, writers := s.writers[w := c.(job := Unlinked(c.job, chunk))])
    case PurgeSrem(w) =>
      var c := s.writers[w];
      s.(index := Srem(s.index, c.job.index, c.job.gap), writers := s.writers[w := c.(job := Sremmed(c.job))])
    case EndPurge(w) =>
      var c := s.writers[w];
      s.(index := SremAll(s.index, c.job.also, c.job.removed),
         writers := s.writers[w := Bumped(c.version, c.namespaces, c.keys, c.bump, c.done + 1)])
    case DropKeys(w) =>
      var c := s.writers[w];
      DropAll(s, c.keys).(writers := s.writers[w := Finished(c.version, c.namespaces, c.keys, c.bump)])
    case FailPurge(w) =>
      var c := s.writers[w];
      s.(writers := s.writers[w := Committed(c.version, c.namespaces, c.keys)])
    case StartSweep(w) =>
      var c := s.writers[w];
      var names := set n | n in s.data.Keys + s.index.Keys && Swept(s.prefix, n);
      s.(writers := s.writers[w := Sweeping(c.version, c.namespaces, c.keys, c.bump, names)])
    case SweepUnlink(w, names) =>
      var c := s.writers[w];
      s.(data := s.data - names, index := s.index - names,
         writers := s.writers[w := c.(must := c.must - names)])
    case SweepMiss(w, names) =>
      var c := s.writers[w];
      s.(writers := s.writers[w := c.(must := c.must - names)])
    case EndSweep(w) =>
      var c := s.writers[w];
      s.(writers := s.writers[w := Flushed(c.version, c.namespaces, c.keys, c.bump)])
    case Evict(keys) => s.(data := s.data - keys)
  }

  function Initial(prefix: string): State {
    State(prefix, 0, 0, map[], map[], map[], map[])
  }

  /** `t` is reached from `s` by `actions`, each enabled in turn. */
  ghost predicate Runs(s: State, actions: seq<Action>, t: State)
    decreases |actions|
  {
    if actions == [] then s == t
    else Enabled(s, actions[0]) && Runs(Apply(s, actions[0]), actions[1..], t)
  }
}
