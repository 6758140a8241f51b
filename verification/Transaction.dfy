/** Transaction ownership (app/core/base/transaction.py): re-entrant `atomic` blocks on one session and the callbacks
    they run after the commit. */
module Transaction {
  import opened Common

  // ----- Programs on one session -----

  /** What becomes of a block that got to its end: its savepoint exit and COMMIT go through, or one of them fails, or
      the COMMIT takes effect and raises, because its reply is lost. */
  datatype Commit = Succeeds | Fails | FailsLate

  /** What service code does on a session. A block says what becomes of its COMMIT. */
  datatype Stmt =
    | Skip
    | Write(row: nat)                      // a repository flush, guarded by require_atomic
    | Raise
    | Seq(first: Stmt, second: Stmt)
    | Catch(body: Stmt)                    // try: body except Exception: pass
    | AfterCommit(callback: Callback)
    | Atomic(body: Stmt, commit: Commit)

  datatype Callback = Callback(id: nat, body: Stmt)

  datatype Event =
    | Raised                 // the code raises, or writes outside any block
    | Entered                // a try statement
    | Left                   // and its end, without an exception
    | Caught                 // or with one
    | Began                  // the outermost block opens
    | Wrote(row: nat)
    | Registered(id: nat)
    | Ran(id: nat)           // called by _run_pending
    | Finished(id: nat)      // and returned
    | Failed(id: nat)        // or raised, which is only logged
    | RanNow(id: nat)        // called by after_commit outside any block
    | Committed
    | RolledBack             // and the exception goes on
    | CommitLost             // the COMMIT took effect and raised; the ROLLBACK that follows finds nothing to undo

  function Size(s: Stmt): (n: nat)
    ensures n > 0
  {
    match s
    case Seq(a, b) => 1 + Size(a) + Size(b)
    case Catch(b) => 1 + Size(b)
    case AfterCommit(c) => 2 + Size(c.body)
    case Atomic(b, _) => 1 + Size(b)
    case _ => 1
  }

  function TotalSize(cs: seq<Callback>): nat {
    if cs == [] then 0 else 1 + Size(cs[0].body) + TotalSize(cs[1..])
  }

  lemma {:induction false} TotalSizeConcat(a: seq<Callback>, b: seq<Callback>)
    ensures TotalSize(a + b) == TotalSize(a) + TotalSize(b)
  {
    if a == [] {
      assert a + b == b;
    } else {
      TotalSizeConcat(a[1..], b);
      assert (a + b)[1..] == a[1..] + b;
    }
  }

  // ----- Meaning without a depth counter or a pending list -----

  /** Inside a block: what happens, which callbacks it leaves to the block, and whether it returns normally. */
  datatype InBlock = InBlock(events: seq<Event>, callbacks: seq<Callback>, ok: bool)

  function Inside(s: Stmt): (r: InBlock)
    ensures TotalSize(r.callbacks) < Size(s)
  {
    match s
    case Skip => InBlock([], [], true)
    case Write(row) => InBlock([Wrote(row)], [], true)
    case Raise => InBlock([Raised], [], false)
    case Seq(a, b) =>
      var x := Inside(a);
      if !x.ok then x
      else
        var y := Inside(b);
        TotalSizeConcat(x.callbacks, y.callbacks);
        InBlock(x.events + y.events, x.callbacks + y.callbacks, y.ok)
    case Catch(b) =>
      var x := Inside(b);
      InBlock([Entered] + x.events + [Handled(x.ok)], x.callbacks, true)
    case AfterCommit(c) =>
      assert [c][1..] == [];
      InBlock([Registered(c.id)], [c], true)
    case Atomic(b, _) => Inside(b)
  }

  /** How a try statement ends that catches every exception. */
  function Handled(ok: bool): Event {
    if ok then Left else Caught
  }

  /** How the outermost block ends: `ok` says that its body returned normally. */
  function End(ok: bool, commit: Commit): Event {
    if !ok then RolledBack
    else
      match commit
      case Succeeds => Committed
      case Fails => RolledBack
      case FailsLate => CommitLost
  }

  /** The outermost block, from its opening to its end. */
  function BlockEvents(b: Stmt, commit: Commit): seq<Event> {
    [Began] + Inside(b).events + [End(Inside(b).ok, commit)]
  }

  /** Outside any block: a block commits and then runs its callbacks, or fails; a callback runs at once. */
  datatype OutBlock = OutBlock(events: seq<Event>, ok: bool)

  function Outside(s: Stmt): OutBlock
    decreases Size(s)
  {
    match s
    case Skip => OutBlock([], true)
    case Write(_) => OutBlock([Raised], false)
    case Raise => OutBlock([Raised], false)
    case Seq(a, b) =>
      var x := Outside(a);
      if !x.ok then x
      else
        var y := Outside(b);
        OutBlock(x.events + y.events, y.ok)
    case Catch(b) =>
      var x := Outside(b);
      OutBlock([Entered] + x.events + [Handled(x.ok)], true)
    case AfterCommit(c) =>
      var x := Outside(c.body);
      OutBlock([RanNow(c.id)] + x.events, x.ok)
    case Atomic(b, commit) =>
      var x := Inside(b);
      if End(x.ok, commit).Committed? then OutBlock(BlockEvents(b, commit) + RunAll(x.callbacks), true)
      else OutBlock(BlockEvents(b, commit), false)
  }

  /** The callbacks of a committed block, one after the other; a failing one does not stop the rest. */
  function RunAll(cs: seq<Callback>): seq<Event>
    decreases TotalSize(cs), 1
  {
    if cs == [] then [] else RunOf(cs[0]) + RunAll(cs[1..])
  }

  function RunOf(c: Callback): seq<Event>
    decreases Size(c.body) + 1, 0
  {
    var x := Outside(c.body);
    [Ran(c.id)] + x.events + [if x.ok then Finished(c.id) else Failed(c.id)]
  }

  // ----- The session -----

  class Session {
    var depth: nat
    var pending: seq<Callback>
    ghost var log: seq<Event>

    constructor ()
      ensures Idle() && log == []
    {
      depth, pending, log := 0, [], [];
    }

    predicate Idle()
      reads this
    {
      depth == 0 && pending == []
    }

    /** Run `s` on this session; `ok` is false when it raises. */
    method Exec(s: Stmt) returns (ok: bool)
      requires Idle() || depth == 1
      modifies this
      ensures old(depth) == 1 ==> depth == 1 && ok == Inside(s).ok && pending == old(pending) + Inside(s).callbacks &&
                                  log == old(log) + Inside(s).events
      ensures old(depth) == 0 ==> Idle() && ok == Outside(s).ok && log == old(log) + Outside(s).events
      decreases Size(s), 1
    {
      match s {
        case Skip => ok := true;
        case Write(row) =>
          ok := depth > 0;
          log := log + [if ok then Wrote(row) else Raised];
        case Raise =>
          ok := false;
          log := log + [Raised];
        case Seq(a, b) => ok := ExecBoth(a, b);
        case Catch(b) => ok := RunTry(b);
        case AfterCommit(c) => ok := RunAfterCommit(c);
        case Atomic(b, commit) => ok := RunAtomic(b, commit);
      }
    }

    method ExecBoth(a: Stmt, b: Stmt) returns (ok: bool)
      requires Idle() || depth == 1
      modifies this
      ensures old(depth) == 1 ==> depth == 1 && ok == Inside(Seq(a, b)).ok &&
                                  pending == old(pending) + Inside(Seq(a, b)).callbacks &&
                                  log == old(log) + Inside(Seq(a, b)).events
      ensures old(depth) == 0 ==> Idle() && ok == Outside(Seq(a, b)).ok && log == old(log) + Outside(Seq(a, b)).events
      decreases Size(Seq(a, b)), 0
    {
      ok := Exec(a);
      if ok {
        ok := Exec(b);
        if old(depth) == 1 {
          ConcatAssoc(old(pending), Inside(a).callbacks, Inside(b).callbacks);
          ConcatAssoc(old(log), Inside(a).events, Inside(b).events);
        } else {
          ConcatAssoc(old(log), Outside(a).events, Outside(b).events);
        }
      }
    }

    /** try: body except Exception: pass */
    method RunTry(b: Stmt) returns (ok: bool)
      requires Idle() || depth == 1
      modifies this
      ensures ok
      ensures old(depth) == 1 ==> depth == 1 && pending == old(pending) + Inside(Catch(b)).callbacks &&
                                  log == old(log) + Inside(Catch(b)).events
      ensures old(depth) == 0 ==> Idle() && log == old(log) + Outside(Catch(b)).events
      decreases Size(Catch(b)), 0
    {
      log := log + [Entered];
      var returned := Exec(b);
      log := log + [Handled(returned)];
      ok := true;
      if old(depth) == 1 {
        assert log == old(log) + ([Entered] + Inside(b).events + [Handled(returned)]);
      } else {
        assert log == old(log) + ([Entered] + Outside(b).events + [Handled(returned)]);
      }
    }

    /** `after_commit` */
    method RunAfterCommit(c: Callback) returns (ok: bool)
      requires Idle() || depth == 1
      modifies this
      ensures old(depth) == 1 ==>
          depth == 1 && ok && pending == old(pending) + [c] && log == old(log) + [Registered(c.id)]
      ensures old(depth) == 0 ==>
          Idle() && ok == Outside(c.body).ok && log == old(log) + ([RanNow(c.id)] + Outside(c.body).events)
      decreases Size(c.body), 2
    {
      if depth > 0 {
        pending := pending + [c];
        log := log + [Registered(c.id)];
        return true;
      }
      log := log + [RanNow(c.id)];
      ok := Exec(c.body);
    }

    /** `atomic` around `b`: a nested block joins the outer one. */
    method RunAtomic(b: Stmt, commit: Commit) returns (ok: bool)
      requires Idle() || depth == 1
      modifies this
      ensures old(depth) == 1 ==> depth == 1 && ok == Inside(b).ok && pending == old(pending) + Inside(b).callbacks &&
                                  log == old(log) + Inside(b).events
      ensures old(depth) == 0 ==> Idle() && ok == Outside(Atomic(b, commit)).ok &&
                                  log == old(log) + Outside(Atomic(b, commit)).events
      decreases Size(b), 4
    {
      if depth > 0 {
        ok := Exec(b);
      } else {
        ok := RunOwner(b, commit);
      }
    }

    /** The outermost block, and what it leaves pending. */
    method RunOwner(b: Stmt, commit: Commit) returns (ok: bool)
      requires Idle()
      modifies this
      ensures Idle() && ok == Outside(Atomic(b, commit)).ok
      ensures log == old(log) + Outside(Atomic(b, commit)).events
      decreases Size(b), 3
    {
      ghost var before := log;
      ok := RunOutermost(b, commit);
      if ok {
        RunPending();
        assert log == before + (BlockEvents(b, commit) + RunAll(Inside(b).callbacks));
      }
    }

    /** The outermost block owns COMMIT and ROLLBACK; on success it leaves its callbacks pending, and whatever raises,
        also a COMMIT that took effect, clears them. */
    method RunOutermost(b: Stmt, commit: Commit) returns (ok: bool)
      requires Idle()
      modifies this
      ensures depth == 0 && ok == (Inside(b).ok && commit.Succeeds?)
      ensures pending == if ok then Inside(b).callbacks else []
      ensures log == old(log) + BlockEvents(b, commit)
      decreases Size(b), 2
    {
      depth := depth + 1;
      log := log + [Began];
      var returned := Exec(b);
      assert pending == Inside(b).callbacks && log == old(log) + ([Began] + Inside(b).events);
      ok := returned && commit.Succeeds?;
      log := log + [End(returned, commit)];
      if !ok {
        pending := [];
      }
      depth := depth - 1;
    }

    /** A callback that raises is only logged. */
    method RunCallback(c: Callback)
      requires Idle()
      modifies this
      ensures Idle() && log == old(log) + RunOf(c)
      decreases Size(c.body), 2
    {
      log := log + [Ran(c.id)];
      var ok := Exec(c.body);
      log := log + [if ok then Finished(c.id) else Failed(c.id)];
      assert log == old(log) + RunOf(c);
    }

    /** `_run_pending` */
    method RunPending()
      requires depth == 0
      modifies this
      ensures Idle() && log == old(log) + RunAll(old(pending))
      decreases TotalSize(pending), 3
    {
      var batch := pending;
      pending := [];
      var rest := batch;
      while rest != []
        invariant Idle() && TotalSize(rest) <= TotalSize(batch)
        invariant log + RunAll(rest) == old(log) + RunAll(batch)
        decreases |rest|
      {
        ghost var before := log;
        RunCallback(rest[0]);
        assert log + RunAll(rest[1..]) == before + RunAll(rest);
        rest := rest[1..];
      }
    }
  }

  // ----- What every run looks like from the outside -----

  /** What is open: a block, a try statement, a deferred callback, or the callbacks of a committed block that have yet
      to run. */
  datatype Mark = InAtomic | InTry | InCallback(id: nat) | Due(ids: seq<nat>)

  /** An observer of the log: what is open, innermost last, whether an exception is under way, and the callbacks
      registered in the open block. */
  datatype Observer = Observer(marks: seq<Mark>, raising: bool, registered: seq<nat>)

  function Top(marks: seq<Mark>): Option<Mark> {
    if marks == [] then None else Some(marks[|marks| - 1])
  }

  function Popped(marks: seq<Mark>): seq<Mark> {
    if marks == [] then [] else marks[..|marks| - 1]
  }

  /** Inside a block, not counting the one that a running callback belongs to. */
  predicate Blocked(marks: seq<Mark>) {
    marks != [] && (Top(marks) == Some(InAtomic) || (Top(marks) == Some(InTry) && Blocked(Popped(marks))))
  }

  /** Outside any block, and nothing is due. */
  predicate Free(marks: seq<Mark>) {
    !Blocked(marks) && !(Top(marks).Some? && Top(marks).value.Due?)
  }

  function WithDue(marks: seq<Mark>, ids: seq<nat>): seq<Mark> {
    if ids == [] then marks else marks + [Due(ids)]
  }

  /** A write or a registration is accepted only inside a block; a block or an immediate callback only outside; a
      deferred callback only when it is the next one due, and nothing else before it. While an exception is under way,
      only the innermost thing that is open may end: a try statement catches it, a block rolls back and passes it on, a
      callback is logged. */
  function Observe(m: Observer, e: Event): Option<Observer> {
    match e
    case Raised => if !m.raising && (Blocked(m.marks) || Free(m.marks)) then Some(m.(raising := true)) else None
    case Entered =>
      if !m.raising && (Blocked(m.marks) || Free(m.marks)) then Some(m.(marks := m.marks + [InTry])) else None
    case Left => if !m.raising && Top(m.marks) == Some(InTry) then Some(m.(marks := Popped(m.marks))) else None
    case Caught =>
      if m.raising && Top(m.marks) == Some(InTry) then Some(m.(marks := Popped(m.marks), raising := false)) else None
    case Began =>
      if !m.raising && Free(m.marks) && m.registered == [] then Some(m.(marks := m.marks + [InAtomic])) else None
    case Wrote(_) => if !m.raising && Blocked(m.marks) then Some(m) else None
    case Registered(id) =>
      if !m.raising && Blocked(m.marks) then Some(m.(registered := m.registered + [id])) else None
    case Ran(id) =>
      if !m.raising && Top(m.marks).Some? && Top(m.marks).value.Due? && IsFirst(Top(m.marks).value.ids, id) then
        Some(m.(marks := WithDue(Popped(m.marks), Top(m.marks).value.ids[1..]) + [InCallback(id)]))
      else None
    case Finished(id) =>
      if !m.raising && Top(m.marks) == Some(InCallback(id)) then Some(m.(marks := Popped(m.marks))) else None
    case Failed(id) =>
      if m.raising && Top(m.marks) == Some(InCallback(id)) then Some(m.(marks := Popped(m.marks), raising := false))
      else None
    case RanNow(id) => if !m.raising && Free(m.marks) then Some(m) else None
    case Committed =>
      if !m.raising && Top(m.marks) == Some(InAtomic) then
        Some(Observer(WithDue(Popped(m.marks), m.registered), false, []))
      else None
    case RolledBack =>
      if Top(m.marks) == Some(InAtomic) then Some(Observer(Popped(m.marks), true, [])) else None
    case CommitLost =>
      if !m.raising && Top(m.marks) == Some(InAtomic) then Some(Observer(Popped(m.marks), true, [])) else None
  }

  /** What acceptance means: writes and registrations are inside a block, other blocks and immediate callbacks are not;
      what is due comes first; and an exception stops everything else. */
  lemma ObserverIsStrict(m: Observer, e: Event)
    requires Observe(m, e).Some?
    ensures e.Wrote? || e.Registered? ==> InAtomic in m.marks
    ensures e.Began? || e.RanNow? ==> Top(m.marks) != Some(InAtomic)
    ensures Top(m.marks).Some? && Top(m.marks).value.Due? ==>
              e.Ran? && Top(m.marks).value.ids != [] && e.id == Top(m.marks).value.ids[0]
    ensures m.raising ==> e.RolledBack? || e.Caught? || e.Failed?
  {
    if Blocked(m.marks) {
      BlockedHoldsBlock(m.marks);
    }
  }

  lemma {:induction false} BlockedHoldsBlock(marks: seq<Mark>)
    requires Blocked(marks)
    ensures InAtomic in marks
  {
    if Top(marks) != Some(InAtomic) {
      BlockedHoldsBlock(Popped(marks));
    }
  }

  predicate IsFirst(ids: seq<nat>, id: nat) {
    ids != [] && ids[0] == id
  }

  function ObserveAll(m: Observer, events: seq<Event>): Option<Observer>
    decreases |events|
  {
    if events == [] then Some(m)
    else
      match Observe(m, events[0])
      case None => None
      case Some(n) => ObserveAll(n, events[1..])
  }

  lemma {:induction false} ObserveConcat(m: Observer, a: seq<Event>, b: seq<Event>)
    ensures ObserveAll(m, a + b) == match ObserveAll(m, a) case None => None case Some(n) => ObserveAll(n, b)
    decreases |a|
  {
    if a == [] {
      assert a + b == b;
    } else {
      assert (a + b)[1..] == a[1..] + b;
      if Observe(m, a[0]).Some? {
        ObserveConcat(Observe(m, a[0]).value, a[1..], b);
      }
    }
  }

  lemma ObserveFirst(m: Observer, e: Event, rest: seq<Event>)
    requires Observe(m, e).Some?
    ensures ObserveAll(m, [e] + rest) == ObserveAll(Observe(m, e).value, rest)
  {
    assert ([e] + rest)[1..] == rest;
  }

  /** Events between a first and a last one. */
  lemma ObserveBetween(m: Observer, first: Event, events: seq<Event>, last: Event)
    requires Observe(m, first).Some? && ObserveAll(Observe(m, first).value, events).Some?
    requires Observe(ObserveAll(Observe(m, first).value, events).value, last).Some?
    ensures ObserveAll(m, [first] + events + [last])
         == Observe(ObserveAll(Observe(m, first).value, events).value, last)
  {
    ObserveFirst(m, first, events + [last]);
    ObserveConcat(Observe(m, first).value, events, [last]);
    ObserveFirst(ObserveAll(Observe(m, first).value, events).value, last, []);
    assert [first] + events + [last] == [first] + (events + [last]) && [last] + [] == [last];
  }

  function Ids(cs: seq<Callback>): seq<nat> {
    if cs == [] then [] else [cs[0].id] + Ids(cs[1..])
  }

  lemma {:induction false} IdsConcat(a: seq<Callback>, b: seq<Callback>)
    ensures Ids(a + b) == Ids(a) + Ids(b)
  {
    if a == [] {
      assert a + b == b;
    } else {
      IdsConcat(a[1..], b);
      assert (a + b)[0] == a[0] && (a + b)[1..] == a[1..] + b;
      ConcatAssoc([a[0].id], Ids(a[1..]), Ids(b));
    }
  }

  // ----- Inside a block -----

  lemma TopOf(marks: seq<Mark>, mark: Mark)
    ensures Top(marks + [mark]) == Some(mark) && Popped(marks + [mark]) == marks
    ensures Blocked(marks + [mark]) <==> mark.InAtomic? || (mark.InTry? && Blocked(marks))
  {
    assert (marks + [mark])[..|marks|] == marks;
  }

  /** Inside a block, the events register `ids`, and raise exactly if they end with an exception. */
  ghost predicate Registers(events: seq<Event>, ids: seq<nat>, ok: bool) {
    forall marks, registered {:trigger ObserveAll(Observer(marks, false, registered), events)} :: Blocked(marks) ==>
      ObserveAll(Observer(marks, false, registered), events) == Some(Observer(marks, !ok, registered + ids))
  }

  lemma RegistersConcat(a: seq<Event>, x: seq<nat>, b: seq<Event>, y: seq<nat>, ok: bool)
    requires Registers(a, x, true) && Registers(b, y, ok)
    ensures Registers(a + b, x + y, ok)
  {
    forall marks: seq<Mark>, registered: seq<nat> | Blocked(marks)
      ensures ObserveAll(Observer(marks, false, registered), a + b)
           == Some(Observer(marks, !ok, registered + (x + y)))
    {
      ObserveConcat(Observer(marks, false, registered), a, b);
      assert registered + x + y == registered + (x + y);
    }
  }

  lemma RegistersOne(e: Event, ids: seq<nat>, ok: bool)
    requires ((e.Wrote? || e.Raised?) && ids == []) || (e.Registered? && ids == [e.id])
    requires ok <==> !e.Raised?
    ensures Registers([e], ids, ok)
  {
    forall marks: seq<Mark>, registered: seq<nat> | Blocked(marks)
      ensures ObserveAll(Observer(marks, false, registered), [e]) == Some(Observer(marks, !ok, registered + ids))
    {
      ObserveFirst(Observer(marks, false, registered), e, []);
      assert [e] + [] == [e] && registered + [] == registered;
    }
  }

  lemma RegistersNone()
    ensures Registers([], [], true)
  {
    assert forall registered: seq<nat> :: registered + [] == registered;
  }

  lemma RegistersTry(events: seq<Event>, ids: seq<nat>, ok: bool)
    requires Registers(events, ids, ok)
    ensures Registers([Entered] + events + [Handled(ok)], ids, true)
  {
    forall marks: seq<Mark>, registered: seq<nat> | Blocked(marks)
      ensures ObserveAll(Observer(marks, false, registered), [Entered] + events + [Handled(ok)])
           == Some(Observer(marks, false, registered + ids))
    {
      TopOf(marks, InTry);
      ObserveBetween(Observer(marks, false, registered), Entered, events, Handled(ok));
    }
  }

  lemma {:induction false} InsideIsObserved(s: Stmt)
    ensures Registers(Inside(s).events, Ids(Inside(s).callbacks), Inside(s).ok)
  {
    match s
    case Skip => RegistersNone();
    case Raise => RegistersOne(Raised, [], false);
    case Write(row) => RegistersOne(Wrote(row), [], true);
    case AfterCommit(c) =>
      assert Ids([c]) == [c.id];
      RegistersOne(Registered(c.id), [c.id], true);
    case Seq(a, b) =>
      InsideIsObserved(a);
      if Inside(a).ok {
        InsideIsObserved(b);
        RegistersConcat(Inside(a).events, Ids(Inside(a).callbacks), Inside(b).events, Ids(Inside(b).callbacks),
                        Inside(b).ok);
        IdsConcat(Inside(a).callbacks, Inside(b).callbacks);
      }
    case Catch(b) =>
      InsideIsObserved(b);
      RegistersTry(Inside(b).events, Ids(Inside(b).callbacks), Inside(b).ok);
    case Atomic(b, _) => InsideIsObserved(b);
  }

  // ----- Outside any block -----

  /** Outside any block, the events leave nothing open, and raise exactly if they end with an exception. */
  ghost predicate Balanced(events: seq<Event>, ok: bool) {
    forall marks {:trigger ObserveAll(Observer(marks, false, []), events)} :: Free(marks) ==>
      ObserveAll(Observer(marks, false, []), events) == Some(Observer(marks, !ok, []))
  }

  lemma BalancedConcat(a: seq<Event>, b: seq<Event>, ok: bool)
    requires Balanced(a, true) && Balanced(b, ok)
    ensures Balanced(a + b, ok)
  {
    forall marks: seq<Mark> | Free(marks)
      ensures ObserveAll(Observer(marks, false, []), a + b) == Some(Observer(marks, !ok, []))
    {
      ObserveConcat(Observer(marks, false, []), a, b);
    }
  }

  lemma BalancedTry(events: seq<Event>, ok: bool)
    requires Balanced(events, ok)
    ensures Balanced([Entered] + events + [Handled(ok)], true)
  {
    forall marks: seq<Mark> | Free(marks)
      ensures ObserveAll(Observer(marks, false, []), [Entered] + events + [Handled(ok)])
           == Some(Observer(marks, false, []))
    {
      TopOf(marks, InTry);
      ObserveBetween(Observer(marks, false, []), Entered, events, Handled(ok));
    }
  }

  lemma BalancedRanNow(id: nat, events: seq<Event>, ok: bool)
    requires Balanced(events, ok)
    ensures Balanced([RanNow(id)] + events, ok)
  {
    forall marks: seq<Mark> | Free(marks)
      ensures ObserveAll(Observer(marks, false, []), [RanNow(id)] + events) == Some(Observer(marks, !ok, []))
    {
      ObserveFirst(Observer(marks, false, []), RanNow(id), events);
    }
  }

  lemma BalancedRaise()
    ensures Balanced([Raised], false)
  {
    forall marks: seq<Mark> | Free(marks)
      ensures ObserveAll(Observer(marks, false, []), [Raised]) == Some(Observer(marks, true, []))
    {
      ObserveFirst(Observer(marks, false, []), Raised, []);
    }
  }

  lemma BodyIsObserved(b: Stmt, marks: seq<Mark>)
    ensures ObserveAll(Observer(marks + [InAtomic], false, []), Inside(b).events) ==
            Some(Observer(marks + [InAtomic], !Inside(b).ok, Ids(Inside(b).callbacks)))
  {
    TopOf(marks, InAtomic);
    InsideIsObserved(b);
    assert [] + Ids(Inside(b).callbacks) == Ids(Inside(b).callbacks);
  }

  lemma EndIsObserved(ok: bool, commit: Commit, ids: seq<nat>, marks: seq<Mark>)
    ensures Observe(Observer(marks + [InAtomic], !ok, ids), End(ok, commit)) ==
            Some(if End(ok, commit).Committed? then Observer(WithDue(marks, ids), false, [])
                 else Observer(marks, true, []))
  {
    TopOf(marks, InAtomic);
  }

  /** The outermost block up to its end. */
  lemma BlockIsObserved(b: Stmt, commit: Commit, marks: seq<Mark>)
    requires Free(marks)
    ensures var x := Inside(b);
      ObserveAll(Observer(marks, false, []), BlockEvents(b, commit)) ==
      Some(if End(x.ok, commit).Committed? then Observer(WithDue(marks, Ids(x.callbacks)), false, [])
           else Observer(marks, true, []))
  {
    var x := Inside(b);
    var m := Observer(marks, false, []);
    BodyIsObserved(b, marks);
    EndIsObserved(x.ok, commit, Ids(x.callbacks), marks);
    assert Observe(m, Began) == Some(Observer(marks + [InAtomic], false, []));
    ObserveBetween(m, Began, x.events, End(x.ok, commit));
  }

  lemma {:induction false} OutsideIsObserved(s: Stmt)
    ensures Balanced(Outside(s).events, Outside(s).ok)
    decreases Size(s)
  {
    match s
    case Skip =>
    case Raise => BalancedRaise();
    case Write(_) => BalancedRaise();
    case Seq(a, b) =>
      OutsideIsObserved(a);
      if Outside(a).ok {
        OutsideIsObserved(b);
        BalancedConcat(Outside(a).events, Outside(b).events, Outside(b).ok);
      }
    case Catch(b) =>
      OutsideIsObserved(b);
      BalancedTry(Outside(b).events, Outside(b).ok);
    case AfterCommit(c) =>
      OutsideIsObserved(c.body);
      BalancedRanNow(c.id, Outside(c.body).events, Outside(c.body).ok);
    case Atomic(b, commit) => AtomicIsObserved(b, commit);
  }

  lemma {:induction false} AtomicIsObserved(b: Stmt, commit: Commit)
    ensures Balanced(Outside(Atomic(b, commit)).events, Outside(Atomic(b, commit)).ok)
    decreases Size(b), 1
  {
    forall marks: seq<Mark> | Free(marks)
      ensures ObserveAll(Observer(marks, false, []), Outside(Atomic(b, commit)).events)
           == Some(Observer(marks, !Outside(Atomic(b, commit)).ok, []))
    {
      BlockIsObserved(b, commit, marks);
      if End(Inside(b).ok, commit).Committed? {
        RunAllIsObserved(Inside(b).callbacks, marks);
        ObserveConcat(Observer(marks, false, []), BlockEvents(b, commit), RunAll(Inside(b).callbacks));
      }
    }
  }

  /** A callback that is next. */
  lemma NextIsObserved(c: Callback, left: seq<nat>, marks: seq<Mark>)
    requires Free(marks) && Balanced(Outside(c.body).events, Outside(c.body).ok)
    ensures ObserveAll(Observer(marks + [Due([c.id] + left)], false, []), RunOf(c)) ==
            Some(Observer(WithDue(marks, left), false, []))
  {
    var m := Observer(marks + [Due([c.id] + left)], false, []);
    var open := WithDue(marks, left);
    var x := Outside(c.body);
    TopOf(marks, Due([c.id] + left));
    TopOf(open, InCallback(c.id));
    assert ([c.id] + left)[1..] == left;
    assert Observe(m, Ran(c.id)) == Some(Observer(open + [InCallback(c.id)], false, []));
    ObserveBetween(m, Ran(c.id), x.events, if x.ok then Finished(c.id) else Failed(c.id));
  }

  lemma {:induction false} RunAllIsObserved(cs: seq<Callback>, marks: seq<Mark>)
    requires Free(marks)
    ensures ObserveAll(Observer(WithDue(marks, Ids(cs)), false, []), RunAll(cs)) == Some(Observer(marks, false, []))
    decreases TotalSize(cs)
  {
    if cs != [] {
      OutsideIsObserved(cs[0].body);
      NextIsObserved(cs[0], Ids(cs[1..]), marks);
      RunAllIsObserved(cs[1..], marks);
      ObserveConcat(Observer(WithDue(marks, Ids(cs)), false, []), RunOf(cs[0]), RunAll(cs[1..]));
    }
  }

  const START := Observer([], false, [])

  /** Every run of every program on a fresh session: writes happen only inside blocks; each callback registered in a
      block runs exactly once, in registration order, right after the COMMIT of the outermost block, or never if that
      block rolls back or its COMMIT raises; an exception ends what is open up to the try statement that catches it, or
      the callback that logs it; nothing is left over; and the program raises exactly if an exception is still under
      way. */
  lemma EveryRunIsObserved(s: Stmt)
    ensures ObserveAll(START, Outside(s).events) == Some(Observer([], !Outside(s).ok, []))
  {
    OutsideIsObserved(s);
  }

  // ----- Exceptions -----

  /** An exception starts, or goes on. */
  predicate Raises(e: Event) {
    e.Raised? || e.RolledBack? || e.CommitLost?
  }

  lemma {:induction false} ObservePrefix(m: Observer, events: seq<Event>, i: nat)
    requires ObserveAll(m, events).Some? && i < |events|
    ensures ObserveAll(m, events[..i]).Some?
    ensures Observe(ObserveAll(m, events[..i]).value, events[i]).Some?
    ensures ObserveAll(m, events[..i + 1]) == Observe(ObserveAll(m, events[..i]).value, events[i])
    decreases i
  {
    if i > 0 {
      ObservePrefix(Observe(m, events[0]).value, events[1..], i - 1);
      assert events[..i][0] == events[0] && events[..i][1..] == events[1..][..i - 1];
      assert events[..i + 1][1..] == events[1..][..i];
    } else {
      assert events[..0] == [] && events[..1] == [events[0]] && [events[0]][1..] == [];
    }
  }

  lemma RaisingAfter(m: Observer, e: Event)
    requires Observe(m, e).Some?
    ensures Observe(m, e).value.raising <==> Raises(e)
    ensures m.raising ==> e.RolledBack? || e.Caught? || e.Failed?
  {
  }

  /** After an exception nothing runs but the end of what is open: the next event is the rollback of a block, which
      passes it on, a try statement that catches it, or a callback whose failure is logged. */
  lemma NothingRunsWhileRaising(s: Stmt, i: nat)
    requires i + 1 < |Outside(s).events| && Raises(Outside(s).events[i])
    ensures var next := Outside(s).events[i + 1]; next.RolledBack? || next.Caught? || next.Failed?
  {
    var events := Outside(s).events;
    EveryRunIsObserved(s);
    ObservePrefix(START, events, i);
    ObservePrefix(START, events, i + 1);
    RaisingAfter(ObserveAll(START, events[..i]).value, events[i]);
    RaisingAfter(ObserveAll(START, events[..i + 1]).value, events[i + 1]);
  }

  /** A program returns normally exactly if the last thing that happened was no exception. */
  lemma ReturnsUnlessRaising(s: Stmt)
    ensures var events := Outside(s).events;
            Outside(s).ok <==> events == [] || !Raises(events[|events| - 1])
  {
    var events := Outside(s).events;
    EveryRunIsObserved(s);
    if events != [] {
      ObservePrefix(START, events, |events| - 1);
      RaisingAfter(ObserveAll(START, events[..|events| - 1]).value, events[|events| - 1]);
      assert events[..|events|] == events;
    }
  }

  predicate Ends(e: Event) {
    e.Committed? || e.RolledBack? || e.CommitLost?
  }

  /** The end of the first block that a log shows. */
  function FirstEnd(events: seq<Event>): Option<Event> {
    if events == [] then None else if Ends(events[0]) then Some(events[0]) else FirstEnd(events[1..])
  }

  lemma {:induction false} FirstEndOf(before: seq<Event>, end: Event, after: seq<Event>)
    requires Ends(end) && forall e :: e in before ==> !Ends(e)
    ensures FirstEnd(before + [end] + after) == Some(end)
  {
    if before == [] {
      assert before + [end] + after == [end] + after;
    } else {
      FirstEndOf(before[1..], end, after);
      assert (before + [end] + after)[1..] == before[1..] + [end] + after;
    }
  }

  lemma {:induction false} NoEndInside(s: Stmt)
    ensures forall e :: e in Inside(s).events ==> !Ends(e)
  {
    match s
    case Seq(a, b) =>
      NoEndInside(a);
      NoEndInside(b);
    case Catch(b) => NoEndInside(b);
    case Atomic(b, _) => NoEndInside(b);
    case _ =>
  }

  /** An outermost block returns normally exactly if it ended with a COMMIT, whatever its callbacks do; any other end
      passes the exception on. */
  lemma BlockReturnsIffCommitted(b: Stmt, commit: Commit)
    ensures var run := Outside(Atomic(b, commit));
            FirstEnd(run.events).Some? && (run.ok <==> FirstEnd(run.events) == Some(Committed))
    ensures Outside(Atomic(b, commit)).ok <==> Inside(b).ok && commit.Succeeds?
  {
    NoEndInside(b);
    var x, end := Inside(b), End(Inside(b).ok, commit);
    var after := if end.Committed? then RunAll(x.callbacks) else [];
    FirstEndOf([Began] + x.events, end, after);
    assert Outside(Atomic(b, commit)).events == [Began] + x.events + [end] + after;
  }

  // ----- The counting reading of the same fact -----

  function Count(events: seq<Event>, e: Event): nat {
    if events == [] then 0 else (if events[0] == e then 1 else 0) + Count(events[1..], e)
  }

  /** How often `id` was registered in a block that then ended with `end`. */
  function Ended(m: Observer, events: seq<Event>, end: Event, id: nat): nat
    requires ObserveAll(m, events).Some?
    decreases |events|
  {
    if events == [] then 0
    else
      (if events[0] == end then multiset(m.registered)[id] else 0) +
      Ended(Observe(m, events[0]).value, events[1..], end, id)
  }

  /** How often `id` is due. */
  function DueCount(marks: seq<Mark>, id: nat): nat {
    if marks == [] then 0
    else
      DueCount(Popped(marks), id) + if Top(marks).value.Due? then multiset(Top(marks).value.ids)[id] else 0
  }

  lemma DueCountOf(marks: seq<Mark>, mark: Mark, id: nat)
    ensures DueCount(marks + [mark], id) == DueCount(marks, id) + if mark.Due? then multiset(mark.ids)[id] else 0
  {
    TopOf(marks, mark);
  }

  lemma WithDueCount(marks: seq<Mark>, ids: seq<nat>, id: nat)
    ensures DueCount(WithDue(marks, ids), id) == DueCount(marks, id) + multiset(ids)[id]
  {
    DueCountOf(marks, Due(ids), id);
  }

  lemma StepBalances(m: Observer, e: Event, id: nat)
    requires Observe(m, e).Some?
    ensures var n := Observe(m, e).value;
            (if e == Registered(id) then 1 else 0) + multiset(m.registered)[id] ==
            (if Ends(e) then multiset(m.registered)[id] else 0) + multiset(n.registered)[id]
  {
  }

  lemma MultisetFirst(ids: seq<nat>, id: nat)
    requires ids != []
    ensures multiset(ids)[id] == (if ids[0] == id then 1 else 0) + multiset(ids[1..])[id]
  {
    assert ids == [ids[0]] + ids[1..];
  }

  lemma PopCount(marks: seq<Mark>, id: nat)
    requires marks != []
    ensures DueCount(marks, id) ==
            DueCount(Popped(marks), id) + if Top(marks).value.Due? then multiset(Top(marks).value.ids)[id] else 0
  {
  }

  lemma RanTakesOne(m: Observer, first: nat, id: nat)
    requires Observe(m, Ran(first)).Some?
    ensures DueCount(m.marks, id) == (if first == id then 1 else 0) + DueCount(Observe(m, Ran(first)).value.marks, id)
  {
    var ids := Top(m.marks).value.ids;
    PopCount(m.marks, id);
    MultisetFirst(ids, id);
    WithDueCount(Popped(m.marks), ids[1..], id);
    DueCountOf(WithDue(Popped(m.marks), ids[1..]), InCallback(first), id);
  }

  /** Ends other than COMMIT pop a mark that is not due; the rest leave the marks alone. */
  lemma PopKeepsDue(m: Observer, e: Event, id: nat)
    requires Observe(m, e).Some? && !e.Entered? && !e.Began? && !e.Committed? && !e.Ran?
    ensures DueCount(Observe(m, e).value.marks, id) == DueCount(m.marks, id)
  {
    if Observe(m, e).value.marks != m.marks {
      PopCount(m.marks, id);
    }
  }

  lemma PushKeepsDue(m: Observer, e: Event, id: nat)
    requires Observe(m, e).Some? && (e.Entered? || e.Began?)
    ensures DueCount(Observe(m, e).value.marks, id) == DueCount(m.marks, id)
  {
    DueCountOf(m.marks, if e.Entered? then InTry else InAtomic, id);
  }

  lemma CommitMakesDue(m: Observer, id: nat)
    requires Observe(m, Committed).Some?
    ensures DueCount(Observe(m, Committed).value.marks, id) == DueCount(m.marks, id) + multiset(m.registered)[id]
  {
    PopCount(m.marks, id);
    WithDueCount(Popped(m.marks), m.registered, id);
  }

  lemma StepKeepsDue(m: Observer, e: Event, id: nat)
    requires Observe(m, e).Some?
    ensures var n := Observe(m, e).value;
            (if e.Committed? then multiset(m.registered)[id] else 0) + DueCount(m.marks, id) ==
            (if e == Ran(id) then 1 else 0) + DueCount(n.marks, id)
  {
    match e
    case Entered => PushKeepsDue(m, e, id);
    case Began => PushKeepsDue(m, e, id);
    case Committed => CommitMakesDue(m, id);
    case Ran(first) => RanTakesOne(m, first, id);
    case _ => PopKeepsDue(m, e, id);
  }

  lemma {:induction false} CallbacksBalance(m: Observer, events: seq<Event>, id: nat)
    requires ObserveAll(m, events).Some?
    ensures var n := ObserveAll(m, events).value;
            Count(events, Registered(id)) + multiset(m.registered)[id] ==
            Ended(m, events, Committed, id) + Ended(m, events, RolledBack, id) + Ended(m, events, CommitLost, id) +
            multiset(n.registered)[id]
    ensures var n := ObserveAll(m, events).value;
            Ended(m, events, Committed, id) + DueCount(m.marks, id) == Count(events, Ran(id)) + DueCount(n.marks, id)
    decreases |events|
  {
    if events != [] {
      StepBalances(m, events[0], id);
      StepKeepsDue(m, events[0], id);
      CallbacksBalance(Observe(m, events[0]).value, events[1..], id);
    }
  }

  /** Over a whole run, every registration is matched by exactly one run of the callback if its block committed and said
      so, and by none if it rolled back or its COMMIT raised. */
  lemma RanOnceOrForgotten(s: Stmt, id: nat)
    ensures ObserveAll(START, Outside(s).events).Some?
    ensures Count(Outside(s).events, Ran(id)) == Ended(START, Outside(s).events, Committed, id)
    ensures Count(Outside(s).events, Registered(id)) == Count(Outside(s).events, Ran(id)) +
      Ended(START, Outside(s).events, RolledBack, id) + Ended(START, Outside(s).events, CommitLost, id)
  {
    EveryRunIsObserved(s);
    CallbacksBalance(START, Outside(s).events, id);
  }

  // ----- Lost replies to COMMIT -----

  /** The rows that are durable at the end, when `written` are those of the open block. */
  function Durable(written: seq<nat>, events: seq<Event>): seq<nat>
    decreases |events|
  {
    if events == [] then []
    else
      match events[0]
      case Wrote(row) => Durable(written + [row], events[1..])
      case Committed | CommitLost => written + Durable([], events[1..])
      case RolledBack => Durable([], events[1..])
      case _ => Durable(written, events[1..])
  }

  /** What a rolled back block wrote is not durable, whatever follows. */
  lemma RolledBackIsNotDurable(written: seq<nat>, rest: seq<Event>)
    ensures Durable(written, [RolledBack] + rest) == Durable([], rest)
  {
    assert ([RolledBack] + rest)[1..] == rest;
  }

  /** What a block that writes a row and registers a callback looks like when its COMMIT takes effect and raises. */
  lemma LostCommit(row: nat, c: Callback)
    ensures Outside(Atomic(Seq(Write(row), AfterCommit(c)), FailsLate)) ==
            OutBlock([Began, Wrote(row), Registered(c.id), CommitLost], false)
  {
    var b := Seq(Write(row), AfterCommit(c));
    assert Inside(b) == InBlock([Wrote(row), Registered(c.id)], [c], true);
    assert BlockEvents(b, FailsLate) == [Began, Wrote(row), Registered(c.id), CommitLost];
  }

  lemma DurableOfLost(row: nat, id: nat)
    ensures Durable([], [Began, Wrote(row), Registered(id), CommitLost]) == [row]
  {
    var all := [Began, Wrote(row), Registered(id), CommitLost];
    assert all[1..] == [Wrote(row), Registered(id), CommitLost];
    assert all[1..][1..] == [Registered(id), CommitLost];
    assert all[1..][1..][1..] == [CommitLost];
    assert Durable([row], [CommitLost]) == [row] + Durable([], []) == [row];
    assert Durable([row], all[1..][1..]) == Durable([row], [CommitLost]);
    assert [] + [row] == [row];
  }

  /** Such a block may register the purge of the row's cached value: the row is durable, and the purge never runs. */
  lemma LostCommitDropsCallback(row: nat, c: Callback)
    ensures var run := Outside(Atomic(Seq(Write(row), AfterCommit(c)), FailsLate));
            !run.ok && Durable([], run.events) == [row] && Registered(c.id) in run.events && Ran(c.id) !in run.events
  {
    LostCommit(row, c);
    DurableOfLost(row, c.id);
    var events := [Began, Wrote(row), Registered(c.id), CommitLost];
    assert events[2] in events;
  }

  /** With a COMMIT that answers, the callback runs once, right after it. */
  lemma AnsweredCommitRunsCallback(row: nat, id: nat)
    ensures var s := Atomic(Seq(Write(row), AfterCommit(Callback(id, Skip))), Succeeds);
            Answers(s) && Outside(s) ==
            OutBlock([Began, Wrote(row), Registered(id), Committed, Ran(id), Finished(id)], true)
  {
    var c := Callback(id, Skip);
    var b := Seq(Write(row), AfterCommit(c));
    assert Answers(AfterCommit(c)) && Answers(b);
    assert Inside(b) == InBlock([Wrote(row), Registered(id)], [c], true);
    assert BlockEvents(b, Succeeds) == [Began, Wrote(row), Registered(id), Committed];
    assert RunOf(c) == [Ran(id), Finished(id)] && [c][1..] == [];
    assert RunAll([c]) == [Ran(id), Finished(id)];
  }

  /** No COMMIT of the program, or of a callback in it, takes effect and raises. */
  predicate Answers(s: Stmt) {
    match s
    case Seq(a, b) => Answers(a) && Answers(b)
    case Catch(b) => Answers(b)
    case AfterCommit(c) => Answers(c.body)
    case Atomic(b, commit) => !commit.FailsLate? && Answers(b)
    case _ => true
  }

  lemma {:induction false} InsideAnswers(s: Stmt)
    requires Answers(s)
    ensures CommitLost !in Inside(s).events
    ensures forall c :: c in Inside(s).callbacks ==> Answers(c.body)
  {
    match s
    case Seq(a, b) =>
      InsideAnswers(a);
      InsideAnswers(b);
    case Catch(b) => InsideAnswers(b);
    case Atomic(b, _) => InsideAnswers(b);
    case _ =>
  }

  lemma {:induction false} OutsideAnswers(s: Stmt)
    requires Answers(s)
    ensures CommitLost !in Outside(s).events
    decreases Size(s)
  {
    match s
    case Seq(a, b) =>
      OutsideAnswers(a);
      OutsideAnswers(b);
    case Catch(b) => OutsideAnswers(b);
    case AfterCommit(c) => OutsideAnswers(c.body);
    case Atomic(b, commit) =>
      InsideAnswers(b);
      RunAllAnswers(Inside(b).callbacks);
    case _ =>
  }

  lemma {:induction false} RunAllAnswers(cs: seq<Callback>)
    requires forall c :: c in cs ==> Answers(c.body)
    ensures CommitLost !in RunAll(cs)
    decreases TotalSize(cs)
  {
    if cs != [] {
      OutsideAnswers(cs[0].body);
      RunAllAnswers(cs[1..]);
    }
  }

  lemma {:induction false} NeverEnded(m: Observer, events: seq<Event>, end: Event, id: nat)
    requires ObserveAll(m, events).Some? && end !in events
    ensures Ended(m, events, end, id) == 0
    decreases |events|
  {
    if events != [] {
      assert events[0] in events;
      NeverEnded(Observe(m, events[0]).value, events[1..], end, id);
    }
  }

  /** Where every COMMIT answers, a callback fails to run only if its block rolled back. */
  lemma DurableCallbacksRun(s: Stmt, id: nat)
    requires Answers(s)
    ensures ObserveAll(START, Outside(s).events).Some?
    ensures Count(Outside(s).events, Registered(id)) ==
            Count(Outside(s).events, Ran(id)) + Ended(START, Outside(s).events, RolledBack, id)
  {
    RanOnceOrForgotten(s, id);
    OutsideAnswers(s);
    NeverEnded(START, Outside(s).events, CommitLost, id);
  }
}
