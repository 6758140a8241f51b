/** Per-IP rate limiting (app/middleware/rate_limit.py): the bounded in-memory sliding window and the fixed window kept
    in Redis. Times are seconds on a clock that does not run backwards. */
module RateLimit {

  /** A client address and the bucket its request counts against. */
  datatype Client = Client(ip: string, bucket: string)

  const MAX_TRACKED_CLIENTS := 10_000

  // ----- Allowed requests -----

  datatype Hit = Hit(client: Client, time: real)

  /** The moments at which requests of `c` were allowed. */
  ghost function Times(log: seq<Hit>, c: Client): seq<real> {
    if log == [] then []
    else
      var last := log[|log| - 1];
      Times(log[..|log| - 1], c) + if last.client == c then [last.time] else []
  }

  /** Those at `cutoff` or later. */
  ghost function Recent(times: seq<real>, cutoff: real): seq<real> {
    if times == [] then []
    else (if times[0] >= cutoff then [times[0]] else []) + Recent(times[1..], cutoff)
  }

  ghost predicate Ascending(times: seq<real>) {
    forall i, j :: 0 <= i <= j < |times| ==> times[i] <= times[j]
  }

  lemma {:induction false} RecentOfSuffix(times: seq<real>, gone: nat, cutoff: real)
    requires gone <= |times|
    requires forall i :: gone <= i < |times| ==> times[i] >= cutoff
    ensures |Recent(times, cutoff)| >= |times| - gone
    ensures (forall i :: 0 <= i < gone ==> times[i] < cutoff) ==> Recent(times, cutoff) == times[gone..]
    decreases |times|
  {
    if gone > 0 {
      RecentOfSuffix(times[1..], gone - 1, cutoff);
      assert times[1..][gone - 1..] == times[gone..];
    } else if times != [] {
      RecentOfSuffix(times[1..], 0, cutoff);
      assert times == [times[0]] + times[1..];
    }
  }

  lemma TimesSnoc(log: seq<Hit>, h: Hit, c: Client)
    ensures Times(log + [h], c) == Times(log, c) + if h.client == c then [h.time] else []
  {
    assert (log + [h])[..|log|] == log;
  }

  lemma {:induction false} TimesAreHits(log: seq<Hit>, c: Client)
    ensures forall t :: t in Times(log, c) ==> Hit(c, t) in log
  {
    if log != [] {
      TimesAreHits(log[..|log| - 1], c);
    }
  }

  // ----- What a client's history remembers -----

  /** The history of `c` was popped at `since` or later. */
  ghost predicate PoppedSince(pops: seq<Hit>, c: Client, since: real) {
    exists h :: h in pops && h.client == c && h.time >= since
  }

  /** A moment that no longer matters: too old, or not after the client's history was last popped. */
  ghost predicate Gone(t: real, c: Client, cutoff: real, pops: seq<Hit>) {
    t < cutoff || PoppedSince(pops, c, t)
  }

  /** `history` holds the latest of `times`, at most `budget` of them, and whatever it lacks is gone. */
  ghost predicate Remembers(c: Client, history: seq<real>, times: seq<real>, cutoff: real, pops: seq<Hit>, budget: nat)
  {
    && Ascending(times)
    && |history| <= budget && |history| <= |times|
    && history == times[|times| - |history|..]
    && forall i :: 0 <= i < |times| - |history| ==> Gone(times[i], c, cutoff, pops)
  }

  lemma Forget(c: Client, history: seq<real>, k: nat, times: seq<real>, cutoff: real, later: real, pops: seq<Hit>,
               budget: nat)
    requires Remembers(c, history, times, cutoff, pops, budget) && cutoff <= later
    requires k <= |history| && (k > 0 ==> history[k - 1] < later)
    ensures Remembers(c, history[k..], times, later, pops, budget)
  {
    var gone: nat := |times| - |history|;
    assert times[gone + k..] == history[k..];
    forall i | 0 <= i < gone + k ensures Gone(times[i], c, later, pops) {
      if i < gone {
        assert Gone(times[i], c, cutoff, pops);
      } else {
        assert times[i] == history[i - gone] <= history[k - 1];
      }
    }
  }

  lemma Append(c: Client, history: seq<real>, times: seq<real>, time: real, cutoff: real, pops: seq<Hit>, budget: nat)
    requires Remembers(c, history, times, cutoff, pops, budget) && |history| < budget
    requires forall i :: 0 <= i < |times| ==> times[i] <= time
    ensures Remembers(c, history + [time], times + [time], cutoff, pops, budget)
  {
  }

  /** Once a history has shed what is too old it is exactly what happened within the window, unless an oversize pop
      took part of that; in any case it holds no more. */
  lemma HistoryIsRecent(c: Client, history: seq<real>, times: seq<real>, cutoff: real, pops: seq<Hit>, budget: nat)
    requires Remembers(c, history, times, cutoff, pops, budget)
    requires history == [] || history[0] >= cutoff
    ensures |history| <= |Recent(times, cutoff)|
    ensures !PoppedSince(pops, c, cutoff) ==> history == Recent(times, cutoff)
  {
    var gone: nat := |times| - |history|;
    forall i | gone <= i < |times| ensures times[i] >= cutoff {
      assert times[gone] == history[0];
    }
    RecentOfSuffix(times, gone, cutoff);
    if !PoppedSince(pops, c, cutoff) {
      forall i | 0 <= i < gone ensures times[i] < cutoff {
        assert Gone(times[i], c, cutoff, pops);
      }
    }
  }

  // ----- Pace -----

  /** The history of `c` was popped in the closed interval from `start` to `end`. */
  ghost predicate PoppedWithin(pops: seq<Hit>, c: Client, start: real, end: real) {
    exists h :: h in pops && h.client == c && start <= h.time <= end
  }

  /** Since any moment of the closed `period` before `t` after which `c` was not popped, fewer than `calls`. */
  ghost predicate PacedAt(times: seq<real>, t: real, c: Client, pops: seq<Hit>, calls: nat, period: real) {
    forall start :: t - period <= start <= t && !PoppedWithin(pops, c, start, t) ==> |Recent(times, start)| < calls
  }

  /** Each of the moments was allowed at that pace. */
  ghost predicate Paced(times: seq<real>, c: Client, pops: seq<Hit>, calls: nat, period: real) {
    forall k :: 0 <= k < |times| ==> PacedAt(times[..k], times[k], c, pops, calls, period)
  }

  lemma {:induction false} RecentSnoc(times: seq<real>, t: real, cutoff: real)
    ensures Recent(times + [t], cutoff) == Recent(times, cutoff) + if t >= cutoff then [t] else []
  {
    if times == [] {
      assert [t][1..] == [];
    } else {
      RecentSnoc(times[1..], t, cutoff);
      assert (times + [t])[1..] == times[1..] + [t];
    }
  }

  /** How many hits of `c` lie in the closed interval from `start` to `end`. */
  ghost function Between(log: seq<Hit>, c: Client, start: real, end: real): nat {
    if log == [] then 0
    else
      var last := log[|log| - 1];
      Between(log[..|log| - 1], c, start, end) + if last.client == c && start <= last.time <= end then 1 else 0
  }

  lemma {:induction false} BetweenIsRecent(log: seq<Hit>, c: Client, start: real, end: real, cutoff: real)
    requires cutoff <= start
    ensures Between(log, c, start, end) <= |Recent(Times(log, c), cutoff)|
  {
    if log != [] {
      var front, last := log[..|log| - 1], log[|log| - 1];
      BetweenIsRecent(front, c, start, end, cutoff);
      RecentSnoc(Times(front, c), last.time, cutoff);
      assert Times(front, c) + [] == Times(front, c);
    }
  }

  lemma PacedSnoc(times: seq<real>, t: real, c: Client, pops: seq<Hit>, calls: nat, period: real)
    ensures Paced(times + [t], c, pops, calls, period) <==>
      Paced(times, c, pops, calls, period) && PacedAt(times, t, c, pops, calls, period)
  {
    var all := times + [t];
    assert all[..|times|] == times && all[|times|] == t;
    assert forall k :: 0 <= k < |times| ==> all[..k] == times[..k] && all[k] == times[k];
  }

  /** A client that is let through at this pace gets at most `calls` through in any closed interval of one period in
      which its history was not popped. */
  lemma {:induction false} PacedIsSliding(log: seq<Hit>, c: Client, pops: seq<Hit>, calls: nat, period: real,
                                          start: real)
    requires Paced(Times(log, c), c, pops, calls, period) && !PoppedWithin(pops, c, start, start + period)
    ensures Between(log, c, start, start + period) <= calls
  {
    if log != [] {
      var front, last := log[..|log| - 1], log[|log| - 1];
      if last.client == c {
        PacedSnoc(Times(front, c), last.time, c, pops, calls, period);
        PacedIsSliding(front, c, pops, calls, period, start);
        if start <= last.time <= start + period {
          assert !PoppedWithin(pops, c, start, last.time);
          BetweenIsRecent(front, c, start, start + period, start);
        }
      } else {
        assert Times(front, c) + [] == Times(front, c);
        PacedIsSliding(front, c, pops, calls, period, start);
      }
    }
  }

  /** The largest number of calls that a client was ever allowed: the budget of its bucket. */
  ghost function BudgetOf(budgets: map<Client, nat>, c: Client): nat {
    if c in budgets then budgets[c] else 0
  }

  ghost function Raised(budgets: map<Client, nat>, c: Client, calls: int): map<Client, nat> {
    budgets[c := Max(BudgetOf(budgets, c), calls)]
  }

  /** Every client is paced by its own budget. */
  ghost predicate AllPaced(log: seq<Hit>, pops: seq<Hit>, budgets: map<Client, nat>, period: real) {
    forall c {:trigger Paced(Times(log, c), c, pops, BudgetOf(budgets, c), period)} ::
      Paced(Times(log, c), c, pops, BudgetOf(budgets, c), period)
  }

  lemma PopsLoosen(times: seq<real>, c: Client, pops: seq<Hit>, calls: nat, period: real, pops': seq<Hit>, more: nat)
    requires Paced(times, c, pops, calls, period) && pops <= pops' && calls <= more
    ensures Paced(times, c, pops', more, period)
  {
    forall k, start | 0 <= k < |times| && times[k] - period <= start <= times[k]
      && !PoppedWithin(pops', c, start, times[k])
      ensures |Recent(times[..k], start)| < more
    {
      assert PacedAt(times[..k], times[k], c, pops, calls, period);
      assert !PoppedWithin(pops, c, start, times[k]);
    }
  }

  lemma PaceLoosens(log: seq<Hit>, pops: seq<Hit>, budgets: map<Client, nat>, period: real, pops': seq<Hit>,
                    client: Client, calls: int)
    requires AllPaced(log, pops, budgets, period) && pops <= pops'
    ensures AllPaced(log, pops', Raised(budgets, client, calls), period)
  {
    var budgets' := Raised(budgets, client, calls);
    forall c ensures Paced(Times(log, c), c, pops', BudgetOf(budgets', c), period) {
      assert Paced(Times(log, c), c, pops, BudgetOf(budgets, c), period);
      PopsLoosen(Times(log, c), c, pops, BudgetOf(budgets, c), period, pops', BudgetOf(budgets', c));
    }
  }

  lemma RecordedIsPaced(log: seq<Hit>, pops: seq<Hit>, budgets: map<Client, nat>, period: real, client: Client,
                        time: real)
    requires AllPaced(log, pops, budgets, period)
    requires PacedAt(Times(log, client), time, client, pops, BudgetOf(budgets, client), period)
    ensures AllPaced(log + [Hit(client, time)], pops, budgets, period)
  {
    var log' := log + [Hit(client, time)];
    forall c ensures Paced(Times(log', c), c, pops, BudgetOf(budgets, c), period) {
      assert Paced(Times(log, c), c, pops, BudgetOf(budgets, c), period);
      TimesSnoc(log, Hit(client, time), c);
      PacedSnoc(Times(log, c), time, c, pops, BudgetOf(budgets, c), period);
      assert Times(log, c) + [] == Times(log, c);
    }
  }

  lemma {:induction false} RecentIsRest(times: seq<real>, gone: nat, cutoff: real)
    requires gone <= |times| && forall i :: 0 <= i < gone ==> times[i] < cutoff
    ensures |Recent(times, cutoff)| <= |times| - gone
  {
    if gone > 0 {
      RecentIsRest(times[1..], gone - 1, cutoff);
    } else {
      RecentIsShort(times, cutoff);
    }
  }

  /** A history with room for one more keeps the pace. */
  lemma RoomIsPace(c: Client, history: seq<real>, times: seq<real>, time: real, pops: seq<Hit>, budget: nat,
                   period: real)
    requires Remembers(c, history, times, time - period, pops, budget) && |history| < budget && NoneAfter(pops, time)
    ensures PacedAt(times, time, c, pops, budget, period)
  {
    forall start | time - period <= start <= time && !PoppedWithin(pops, c, start, time)
      ensures |Recent(times, start)| < budget
    {
      forall i | 0 <= i < |times| - |history| ensures times[i] < start {
        assert Gone(times[i], c, time - period, pops);
      }
      RecentIsRest(times, |times| - |history|, start);
    }
  }

  // ----- The in-memory fallback -----

  function Without(order: seq<Client>, gone: set<Client>): (r: seq<Client>)
    ensures forall c :: c in r <==> c in order && c !in gone
    ensures |r| <= |order|
  {
    if order == [] then []
    else (if order[0] in gone then [] else [order[0]]) + Without(order[1..], gone)
  }

  ghost predicate Distinct(order: seq<Client>) {
    forall i, j :: 0 <= i < j < |order| ==> order[i] != order[j]
  }

  lemma {:induction false} WithoutIsDistinct(order: seq<Client>, gone: set<Client>)
    requires Distinct(order)
    ensures Distinct(Without(order, gone))
  {
    if order != [] {
      WithoutIsDistinct(order[1..], gone);
      assert forall c :: c in order[1..] ==> c != order[0];
    }
  }

  /** The dict's keys in insertion order. */
  ghost predicate Lists(order: seq<Client>, clients: map<Client, seq<real>>) {
    forall c {:trigger Listed(order, clients, c)} :: Listed(order, clients, c)
  }

  ghost predicate Listed(order: seq<Client>, clients: map<Client, seq<real>>, c: Client) {
    c in order <==> c in clients
  }

  lemma UpdateKeepsKeys(order: seq<Client>, clients: map<Client, seq<real>>, client: Client, history: seq<real>)
    requires Lists(order, clients) && client in clients
    ensures Lists(order, clients[client := history])
  {
    var after := clients[client := history];
    forall c ensures Listed(order, after, c) {
      assert Listed(order, clients, c);
    }
  }

  lemma InsertKeepsKeys(order: seq<Client>, clients: map<Client, seq<real>>, client: Client)
    requires Distinct(order) && Lists(order, clients) && client !in clients
    ensures Distinct(order + [client]) && Lists(order + [client], clients[client := []])
  {
    assert Listed(order, clients, client);
    var order', clients' := order + [client], clients[client := []];
    forall c ensures Listed(order', clients', c) {
      assert Listed(order, clients, c);
    }
  }

  ghost predicate NoneAfter(log: seq<Hit>, time: real) {
    forall h :: h in log ==> h.time <= time
  }

  ghost function Max(a: nat, b: int): nat {
    if b > a then b else a
  }

  function HistoryOf(clients: map<Client, seq<real>>, c: Client): seq<real> {
    if c in clients then clients[c] else []
  }

  /** Every client's history remembers what still matters of its allowed requests. */
  ghost predicate Remembered(clients: map<Client, seq<real>>, log: seq<Hit>, cutoff: real, pops: seq<Hit>,
                             budgets: map<Client, nat>)
  {
    forall c {:trigger Remembers(c, HistoryOf(clients, c), Times(log, c), cutoff, pops, BudgetOf(budgets, c))} ::
      Remembers(c, HistoryOf(clients, c), Times(log, c), cutoff, pops, BudgetOf(budgets, c))
  }

  function Stale(clients: map<Client, seq<real>>, cutoff: real): set<Client> {
    set c | c in clients && (clients[c] == [] || clients[c][|clients[c]| - 1] < cutoff)
  }

  /** A history whose last entry is too old has nothing left to remember. */
  lemma StaleAreForgotten(order: seq<Client>, clients: map<Client, seq<real>>, log: seq<Hit>, cutoff: real, later: real,
                          pops: seq<Hit>, budgets: map<Client, nat>, stale: set<Client>)
    requires Distinct(order) && Lists(order, clients) && Remembered(clients, log, cutoff, pops, budgets)
    requires cutoff <= later
    requires stale == Stale(clients, later)
    ensures Distinct(Without(order, stale)) && Lists(Without(order, stale), clients - stale)
    ensures Remembered(clients - stale, log, later, pops, budgets)
  {
    WithoutIsDistinct(order, stale);
    var kept := clients - stale;
    forall c ensures Listed(Without(order, stale), kept, c) {
      assert Listed(order, clients, c);
    }
    forall c ensures Remembers(c, HistoryOf(kept, c), Times(log, c), later, pops, BudgetOf(budgets, c)) {
      var history := HistoryOf(clients, c);
      assert Remembers(c, history, Times(log, c), cutoff, pops, BudgetOf(budgets, c));
      var k: nat := if c in stale then |history| else 0;
      Forget(c, history, k, Times(log, c), cutoff, later, pops, BudgetOf(budgets, c));
      assert history[k..] == HistoryOf(kept, c);
    }
  }

  lemma RecordedIsRemembered(clients: map<Client, seq<real>>, log: seq<Hit>, cutoff: real, pops: seq<Hit>,
                             budgets: map<Client, nat>, client: Client, time: real)
    requires Remembered(clients, log, cutoff, pops, budgets) && |HistoryOf(clients, client)| < BudgetOf(budgets, client)
    requires NoneAfter(log, time)
    ensures Remembered(clients[client := HistoryOf(clients, client) + [time]], log + [Hit(client, time)], cutoff,
                       pops, budgets)
    ensures NoneAfter(log + [Hit(client, time)], time)
  {
    var clients' := clients[client := HistoryOf(clients, client) + [time]];
    var log' := log + [Hit(client, time)];
    forall c ensures Remembers(c, HistoryOf(clients', c), Times(log', c), cutoff, pops, BudgetOf(budgets, c)) {
      var times := Times(log, c);
      assert Remembers(c, HistoryOf(clients, c), times, cutoff, pops, BudgetOf(budgets, c));
      TimesSnoc(log, Hit(client, time), c);
      if c == client {
        TimesAreHits(log, c);
        forall i | 0 <= i < |times| ensures times[i] <= time {
          assert Hit(c, times[i]) in log;
        }
        Append(c, HistoryOf(clients, c), times, time, cutoff, pops, BudgetOf(budgets, c));
      } else {
        assert Times(log', c) == times;
      }
    }
  }

  lemma RoomKeepsPace(clients: map<Client, seq<real>>, log: seq<Hit>, pops: seq<Hit>, budgets: map<Client, nat>,
                      period: real, client: Client, time: real)
    requires AllPaced(log, pops, budgets, period) && Remembered(clients, log, time - period, pops, budgets)
    requires NoneAfter(pops, time) && |HistoryOf(clients, client)| < BudgetOf(budgets, client)
    ensures AllPaced(log + [Hit(client, time)], pops, budgets, period)
  {
    assert Remembers(client, HistoryOf(clients, client), Times(log, client), time - period, pops,
                     BudgetOf(budgets, client));
    RoomIsPace(client, HistoryOf(clients, client), Times(log, client), time, pops, BudgetOf(budgets, client), period);
    RecordedIsPaced(log, pops, budgets, period, client, time);
  }

  lemma TrimmedIsRemembered(clients: map<Client, seq<real>>, log: seq<Hit>, cutoff: real, pops: seq<Hit>,
                            budgets: map<Client, nat>, client: Client)
    requires Remembered(clients, log, cutoff, pops, budgets)
    requires HistoryOf(clients, client) != [] && HistoryOf(clients, client)[0] < cutoff
    ensures Remembered(clients[client := HistoryOf(clients, client)[1..]], log, cutoff, pops, budgets)
  {
    var clients' := clients[client := HistoryOf(clients, client)[1..]];
    forall c ensures Remembers(c, HistoryOf(clients', c), Times(log, c), cutoff, pops, BudgetOf(budgets, c)) {
      assert Remembers(c, HistoryOf(clients, c), Times(log, c), cutoff, pops, BudgetOf(budgets, c));
      if c == client {
        Forget(c, HistoryOf(clients, c), 1, Times(log, c), cutoff, cutoff, pops, BudgetOf(budgets, c));
      }
    }
  }

  /** `count` is the number of requests allowed since `cutoff`, or less if an oversize pop took some of them. */
  ghost predicate Exact(c: Client, count: nat, log: seq<Hit>, cutoff: real, pops: seq<Hit>) {
    && count <= |Recent(Times(log, c), cutoff)|
    && (!PoppedSince(pops, c, cutoff) ==> count == |Recent(Times(log, c), cutoff)|)
  }

  lemma TrimmedIsExact(clients: map<Client, seq<real>>, log: seq<Hit>, cutoff: real, pops: seq<Hit>,
                       budgets: map<Client, nat>, c: Client)
    requires Remembered(clients, log, cutoff, pops, budgets)
    requires c in clients && (clients[c] == [] || clients[c][0] >= cutoff)
    ensures Exact(c, |clients[c]|, log, cutoff, pops)
  {
    assert Remembers(c, HistoryOf(clients, c), Times(log, c), cutoff, pops, BudgetOf(budgets, c));
    HistoryIsRecent(c, clients[c], Times(log, c), cutoff, pops, BudgetOf(budgets, c));
  }

  lemma RecordedIsExact(order: seq<Client>, clients: map<Client, seq<real>>, log: seq<Hit>, cutoff: real,
                        pops: seq<Hit>, budgets: map<Client, nat>, c: Client, time: real)
    requires Lists(order, clients)
    requires Remembered(clients, log, cutoff, pops, budgets) && NoneAfter(log, time) && cutoff < time
    requires c in clients && |clients[c]| < BudgetOf(budgets, c) && (clients[c] == [] || clients[c][0] >= cutoff)
    ensures Remembered(clients[c := clients[c] + [time]], log + [Hit(c, time)], cutoff, pops, budgets)
    ensures NoneAfter(log + [Hit(c, time)], time) && Lists(order, clients[c := clients[c] + [time]])
    ensures Exact(c, |clients[c]| + 1, log + [Hit(c, time)], cutoff, pops)
  {
    RecordedIsRemembered(clients, log, cutoff, pops, budgets, c, time);
    UpdateKeepsKeys(order, clients, c, clients[c] + [time]);
    TrimmedIsExact(clients[c := clients[c] + [time]], log + [Hit(c, time)], cutoff, pops, budgets, c);
  }

  /** How many histories are over the cap. */
  function Excess(order: seq<Client>): nat {
    if |order| > MAX_TRACKED_CLIENTS then |order| - MAX_TRACKED_CLIENTS else 0
  }

  /** The oversize pops of `order` at `time`. */
  ghost function PopsOf(order: seq<Client>, time: real): seq<Hit> {
    seq(|order|, i requires 0 <= i < |order| => Hit(order[i], time))
  }

  function ClientsOf(order: seq<Client>): set<Client> {
    set c | c in order
  }

  /** Whom an eviction at `cutoff` pops after it has dropped the stale histories. */
  function Evicted(order: seq<Client>, clients: map<Client, seq<real>>, cutoff: real): seq<Client> {
    var left := Without(order, Stale(clients, cutoff));
    if |order| > MAX_TRACKED_CLIENTS then left[..Excess(left)] else []
  }

  /** And whose histories are left. */
  function Kept(order: seq<Client>, clients: map<Client, seq<real>>, cutoff: real): seq<Client> {
    if |order| <= MAX_TRACKED_CLIENTS then order
    else
      var left := Without(order, Stale(clients, cutoff));
      left[Excess(left)..]
  }

  lemma PopKeepsKeys(order: seq<Client>, clients: map<Client, seq<real>>)
    requires order != [] && Distinct(order) && Lists(order, clients)
    ensures Distinct(order[1..]) && Lists(order[1..], clients - {order[0]})
  {
    assert order == [order[0]] + order[1..];
    forall c ensures Listed(order[1..], clients - {order[0]}, c) {
      assert Listed(order, clients, c);
    }
  }

  lemma PopNext(order: seq<Client>, n: nat, time: real)
    requires n < |order|
    ensures PopsOf(order[..n + 1], time) == PopsOf(order[..n], time) + [Hit(order[n], time)]
    ensures ClientsOf(order[..n + 1]) == ClientsOf(order[..n]) + {order[n]}
  {
    assert order[..n + 1] == order[..n] + [order[n]];
  }

  lemma EarlierPops(pops: seq<Hit>, pops': seq<Hit>, c: Client, since: real, later: real)
    requires pops <= pops' && since <= later
    ensures PoppedSince(pops, c, since) || PoppedSince(pops', c, later) ==> PoppedSince(pops', c, since)
  {
    if PoppedSince(pops, c, since) {
      var h :| h in pops && h.client == c && h.time >= since;
      assert h in pops';
    } else if PoppedSince(pops', c, later) {
      var h :| h in pops' && h.client == c && h.time >= later;
    }
  }

  lemma PoppedIsGone(t: real, c: Client, cutoff: real, pops: seq<Hit>, pop: Hit)
    requires Gone(t, c, cutoff, pops) || (pop.client == c && t <= pop.time)
    ensures Gone(t, c, cutoff, pops + [pop])
  {
    if pop.client == c && t <= pop.time {
      assert pop in pops + [pop];
    } else if t >= cutoff {
      var h :| h in pops && h.client == c && h.time >= t;
      assert h in pops + [pop];
    }
  }

  lemma PoppedIsRemembered(clients: map<Client, seq<real>>, log: seq<Hit>, cutoff: real, pops: seq<Hit>,
                           budgets: map<Client, nat>, oldest: Client, time: real)
    requires Remembered(clients, log, cutoff, pops, budgets) && NoneAfter(log, time)
    ensures Remembered(clients - {oldest}, log, cutoff, pops + [Hit(oldest, time)], budgets)
  {
    var clients', pops' := clients - {oldest}, pops + [Hit(oldest, time)];
    forall c ensures Remembers(c, HistoryOf(clients', c), Times(log, c), cutoff, pops', BudgetOf(budgets, c)) {
      var times := Times(log, c);
      assert Remembers(c, HistoryOf(clients, c), times, cutoff, pops, BudgetOf(budgets, c));
      TimesAreHits(log, c);
      forall i | 0 <= i < |times| - |HistoryOf(clients', c)| ensures Gone(times[i], c, cutoff, pops') {
        assert Hit(c, times[i]) in log;
        PoppedIsGone(times[i], c, cutoff, pops, Hit(oldest, time));
      }
    }
  }

  lemma RaisedIsRemembered(clients: map<Client, seq<real>>, log: seq<Hit>, cutoff: real, pops: seq<Hit>,
                           budgets: map<Client, nat>, client: Client, calls: int)
    requires Remembered(clients, log, cutoff, pops, budgets)
    ensures Remembered(clients, log, cutoff, pops, Raised(budgets, client, calls))
  {
    var budgets' := Raised(budgets, client, calls);
    forall c ensures Remembers(c, HistoryOf(clients, c), Times(log, c), cutoff, pops, BudgetOf(budgets', c)) {
      assert Remembers(c, HistoryOf(clients, c), Times(log, c), cutoff, pops, BudgetOf(budgets, c));
    }
  }

  ghost predicate OthersStay(before: map<Client, seq<real>>, after: map<Client, seq<real>>, client: Client) {
    forall c :: c != client ==> (c in after <==> c in before) && (c in before ==> after[c] == before[c])
  }

  class LocalWindow {
    const period: real

    /** The dict of histories and its insertion order. */
    var order: seq<Client>
    var clients: map<Client, seq<real>>

    /** All allowed requests, all oversize pops, the last clock reading, the budget of each client's bucket. */
    ghost var log: seq<Hit>
    ghost var pops: seq<Hit>
    ghost var now: real
    ghost var budgets: map<Client, nat>

    constructor (period: real)
      requires period > 0.0
      ensures Valid() && log == pops == [] && now == 0.0 && budgets == map[] && this.period == period
      ensures order == [] && clients == map[]
    {
      this.period := period;
      order, clients := [], map[];
      log, pops, now, budgets := [], [], 0.0, map[];
    }

    ghost predicate Tracks()
      reads this
    {
      Distinct(order) && Lists(order, clients)
    }

    ghost predicate Faithful(cutoff: real)
      reads this
    {
      Remembered(clients, log, cutoff, pops, budgets)
    }

    ghost predicate Past()
      reads this
    {
      NoneAfter(log, now) && NoneAfter(pops, now)
    }

    ghost predicate Steady()
      reads this
    {
      AllPaced(log, pops, budgets, period)
    }

    ghost predicate Valid()
      reads this
    {
      period > 0.0 && Steady() && Tracks() && |order| <= MAX_TRACKED_CLIENTS + 1 && Past() && Faithful(now - period)
    }

    /** Histories that are empty or whose last entry is too old go. */
    method DropStale(time: real)
      requires Tracks() && Faithful(now - period) && now <= time
      modifies this`order, this`clients
      ensures Tracks() && |order| <= old(|order|) && Faithful(time - period)
      ensures order == Without(old(order), Stale(old(clients), time - period))
      ensures clients == old(clients) - Stale(old(clients), time - period)
      ensures forall c :: c in clients <==>
                c in old(clients) && var h := old(clients)[c]; h != [] && h[|h| - 1] >= time - period
    {
      var stale := Stale(clients, time - period);
      var order', clients' := Without(order, stale), clients - stale;
      StaleAreForgotten(order, clients, log, now - period, time - period, pops, budgets, stale);
      order, clients := order', clients';
    }

    method PopFirst(time: real)
      requires order != [] && Tracks() && Faithful(time - period) && NoneAfter(log, time)
      modifies this`order, this`clients, this`pops
      ensures Tracks() && Faithful(time - period)
      ensures order == old(order)[1..] && clients == old(clients) - {old(order)[0]}
      ensures pops == old(pops) + [Hit(old(order)[0], time)]
    {
      PoppedIsRemembered(clients, log, time - period, pops, budgets, order[0], time);
      PopKeepsKeys(order, clients);
      pops := pops + [Hit(order[0], time)];
      clients := clients - {order[0]};
      order := order[1..];
    }

    /** Then the oldest-inserted histories go until the cap is met. */
    method PopOldest(time: real)
      requires Tracks() && Faithful(time - period) && NoneAfter(log, time)
      modifies this`order, this`clients, this`pops
      ensures Tracks() && Faithful(time - period)
      ensures order == old(order)[Excess(old(order))..]
      ensures clients == old(clients) - ClientsOf(old(order)[..Excess(old(order))])
      ensures pops == old(pops) + PopsOf(old(order)[..Excess(old(order))], time)
    {
      ghost var n: nat := 0;
      while |order| > MAX_TRACKED_CLIENTS
        invariant n <= Excess(old(order)) && order == old(order)[n..]
        invariant Tracks() && Faithful(time - period)
        invariant clients == old(clients) - ClientsOf(old(order)[..n])
        invariant pops == old(pops) + PopsOf(old(order)[..n], time)
        decreases |order|
      {
        PopNext(old(order), n, time);
        PopFirst(time);
        n := n + 1;
      }
    }

    /** Time passes: what was allowed to be forgotten still is. */
    lemma LaterIsFaithful(cutoff: real, later: real)
      requires Faithful(cutoff) && cutoff <= later
      ensures Faithful(later)
    {
      forall c ensures Remembers(c, HistoryOf(clients, c), Times(log, c), later, pops, BudgetOf(budgets, c)) {
        Forget(c, HistoryOf(clients, c), 0, Times(log, c), cutoff, later, pops, BudgetOf(budgets, c));
      }
    }

    /** An oversize map is evicted. */
    method Evict(time: real)
      requires Tracks() && Faithful(now - period) && now <= time && NoneAfter(log, now)
      requires |order| <= MAX_TRACKED_CLIENTS + 1
      modifies this`order, this`clients, this`pops
      ensures Tracks() && |order| <= MAX_TRACKED_CLIENTS && |order| <= old(|order|) && Faithful(time - period)
      ensures order == Kept(old(order), old(clients), time - period)
      ensures forall c :: c in clients ==> c in old(clients) && clients[c] == old(clients)[c]
      ensures pops == old(pops) + PopsOf(Evicted(old(order), old(clients), time - period), time)
    {
      if |order| > MAX_TRACKED_CLIENTS {
        DropStale(time);
        PopOldest(time);
      } else {
        LaterIsFaithful(now - period, time - period);
      }
    }

    /** The client's history, created if need be, loses from its front what is older than `cutoff`. */
    method Trim(client: Client, cutoff: real)
      requires Tracks() && |order| <= MAX_TRACKED_CLIENTS && Faithful(cutoff)
      modifies this`order, this`clients
      ensures Tracks() && |order| <= old(|order|) + 1 && client in clients && Faithful(cutoff)
      ensures clients[client] == [] || clients[client][0] >= cutoff
      ensures OthersStay(old(clients), clients, client)
    {
      if client !in clients {
        InsertKeepsKeys(order, clients, client);
        order, clients := order + [client], clients[client := []];
        assert forall c :: HistoryOf(clients, c) == HistoryOf(old(clients), c);
      }
      while clients[client] != [] && clients[client][0] < cutoff
        invariant Tracks() && |order| <= old(|order|) + 1 && client in clients && Faithful(cutoff)
        invariant OthersStay(old(clients), clients, client)
        decreases |clients[client]|
      {
        TrimmedIsRemembered(clients, log, cutoff, pops, budgets, client);
        UpdateKeepsKeys(order, clients, client, clients[client][1..]);
        clients := clients[client := clients[client][1..]];
      }
    }

    /** The clock moves on to `time`, and an oversize map is evicted. */
    method Advance(client: Client, calls: int, time: real)
      requires Valid() && now <= time
      modifies this`order, this`clients, this`pops, this`now, this`budgets
      ensures Tracks() && |order| <= MAX_TRACKED_CLIENTS && |order| <= old(|order|)
      ensures Past() && Faithful(time - period) && Steady()
      ensures now == time && budgets == Raised(old(budgets), client, calls)
      ensures order == Kept(old(order), old(clients), time - period)
      ensures forall c :: c in clients ==> c in old(clients) && clients[c] == old(clients)[c]
      ensures pops == old(pops) + PopsOf(Evicted(old(order), old(clients), time - period), time)
    {
      Evict(time);
      PaceLoosens(log, old(pops), budgets, period, pops, client, calls);
      RaisedIsRemembered(clients, log, time - period, pops, budgets, client, calls);
      now, budgets := time, Raised(budgets, client, calls);
    }

    /** An allowed request enters its client's history. */
    method Record(client: Client, time: real)
      requires Valid() && now == time && client in clients && |clients[client]| < BudgetOf(budgets, client)
      requires clients[client] == [] || clients[client][0] >= time - period
      modifies this`clients, this`log
      ensures Valid() && log == old(log) + [Hit(client, time)]
      ensures Exact(client, |old(clients)[client]| + 1, log, time - period, pops)
      ensures OthersStay(old(clients), clients, client)
    {
      RoomKeepsPace(clients, log, pops, budgets, period, client, time);
      RecordedIsExact(order, clients, log, time - period, pops, budgets, client, time);
      clients := clients[client := clients[client] + [time]];
      log := log + [Hit(client, time)];
    }

    /** Once trimmed, the length of a history decides. */
    method Decide(client: Client, calls: int, time: real) returns (count: nat, allowed: bool)
      requires Valid() && now == time && client in clients && BudgetOf(budgets, client) >= calls
      requires clients[client] == [] || clients[client][0] >= time - period
      modifies this`clients, this`log
      ensures Valid() && allowed == (|old(clients)[client]| < calls)
      ensures Exact(client, |old(clients)[client]|, old(log), time - period, pops)
      ensures Exact(client, count, log, time - period, pops)
      ensures log == if allowed then old(log) + [Hit(client, time)] else old(log)
      ensures OthersStay(old(clients), clients, client)
    {
      TrimmedIsExact(clients, log, time - period, pops, budgets, client);
      count := |clients[client]|;
      allowed := count < calls;
      if allowed {
        Record(client, time);
        count := count + 1;
      }
    }

    /** `_local_incr_and_check`. A request with fewer than `calls` allowed in the closed last `period` always passes;
        one with more is refused unless an oversize pop took part of the history within the period. */
    method IncrAndCheck(client: Client, calls: int, time: real) returns (count: nat, allowed: bool)
      requires Valid() && now <= time
      modifies this
      ensures Valid() && now == time && budgets == Raised(old(budgets), client, calls)
      ensures log == if allowed then old(log) + [Hit(client, time)] else old(log)
      ensures pops == old(pops) + PopsOf(Evicted(old(order), old(clients), time - period), time)
      ensures |order| <= old(|order|) + 1
      ensures forall c :: c in clients && c != client ==>
                c in Kept(old(order), old(clients), time - period) && c in old(clients) && clients[c] == old(clients)[c]
      ensures |Recent(Times(old(log), client), time - period)| < calls ==> allowed
      ensures !PoppedSince(pops, client, time - period) ==>
        allowed == (|Recent(Times(old(log), client), time - period)| < calls)
        && count == |Recent(Times(log, client), time - period)|
    {
      Advance(client, calls, time);
      forall c | c in clients ensures c in order {
        assert Listed(order, clients, c);
      }
      Trim(client, time - period);
      count, allowed := Decide(client, calls, time);
    }

    /** In every run: a client gets at most the budget of its bucket through in any closed interval of one period in
        which its history is not popped, and no history is longer than that budget. */
    lemma AllowedIsSliding(c: Client, start: real)
      requires Valid() && !PoppedWithin(pops, c, start, start + period)
      ensures Between(log, c, start, start + period) <= BudgetOf(budgets, c)
      ensures |HistoryOf(clients, c)| <= BudgetOf(budgets, c)
    {
      assert Paced(Times(log, c), c, pops, BudgetOf(budgets, c), period);
      assert Remembers(c, HistoryOf(clients, c), Times(log, c), now - period, pops, BudgetOf(budgets, c));
      PacedIsSliding(log, c, pops, BudgetOf(budgets, c), period, start);
    }

    /** The fallback advertises the delay of the fixed windows, but its own window slides: a client with `calls` recent
        requests has fewer after the delay exactly if its `calls`-th last one is older than the whole seconds spent in
        the fixed window. */
    lemma RetryInFallback(c: Client, calls: nat, time: real, seconds: nat)
      requires Valid() && calls > 0 && seconds > 0 && period == seconds as real
      requires |Recent(Times(log, c), time - period)| >= calls
      ensures var times := Times(log, c);
              |times| >= calls &&
              (|Recent(times, time + RetryAfter(time, seconds) as real - period)| < calls <==>
               times[|times| - calls] < time - (time - Start(Window(time, seconds), seconds)).Floor as real)
    {
      var times := Times(log, c);
      assert Remembers(c, HistoryOf(clients, c), times, now - period, pops, BudgetOf(budgets, c));
      RecentIsFew(times, time - period, calls);
      RecentIsFew(times, time + RetryAfter(time, seconds) as real - period, calls);
    }

    /** A client that asks when its budget is spent, and asks again as told: if it is not popped meanwhile it is
        refused, and then admitted exactly if its `calls`-th last allowed request is older than the whole seconds spent
        in the fixed window. */
    method RetryAsTold(client: Client, calls: nat, time: real, seconds: nat) returns (first: bool, second: bool)
      requires Valid() && now <= time && calls > 0 && seconds > 0 && period == seconds as real
      requires |Recent(Times(log, client), time - period)| >= calls
      modifies this
      ensures Valid() && now == time + RetryAfter(time, seconds) as real
      ensures old(|order|) < MAX_TRACKED_CLIENTS ==> pops == old(pops)
      ensures !PoppedSince(pops, client, time - period) ==>
        var times := Times(old(log), client);
        !first && |times| >= calls &&
        (second <==> times[|times| - calls] < time - (time - Start(Window(time, seconds), seconds)).Floor as real)
    {
      var count;
      RetryReachesNextWindow(time, seconds);
      RetryInFallback(client, calls, time, seconds);
      count, first := IncrAndCheck(client, calls, time);
      ghost var before := pops;
      count, second := IncrAndCheck(client, calls, time + RetryAfter(time, seconds) as real);
      EarlierPops(before, pops, client, time - period, time + RetryAfter(time, seconds) as real - period);
    }
  }

  /** One call a minute, spent at 59.5: refused at 59.9, the client is told to wait 1 second and is refused again. */
  method RetryCanComeTooEarly(client: Client) returns (spent: bool, first: bool, second: bool)
    ensures spent && !first && !second && RetryAfter(59.9, 60) == 1
  {
    WindowHolds(59.9, 60, 0);
    var count;
    var local := new LocalWindow(60.0);
    assert Recent(Times([], client), -0.5) == [];
    count, spent := local.IncrAndCheck(client, 1, 59.5);
    assert Times([Hit(client, 59.5)], client) == [59.5];
    assert |Recent([59.5], 59.9 - 60.0)| == 1;
    first, second := local.RetryAsTold(client, 1, 59.9, 60);
  }

  /** Fewer than `calls` of the moments lie at `cutoff` or later exactly if the `calls`-th last does not. */
  lemma {:induction false} RecentIsFew(times: seq<real>, cutoff: real, calls: nat)
    requires Ascending(times) && calls > 0
    ensures |Recent(times, cutoff)| < calls <==> |times| < calls || times[|times| - calls] < cutoff
    decreases |times|
  {
    if times != [] {
      var rest := times[1..];
      RecentIsFew(rest, cutoff, calls);
      if times[0] >= cutoff {
        RecentOfSuffix(times, 0, cutoff);
      } else if |times| == calls {
        RecentIsShort(rest, cutoff);
      }
    }
  }

  lemma {:induction false} RecentIsShort(times: seq<real>, cutoff: real)
    ensures |Recent(times, cutoff)| <= |times|
  {
    if times != [] {
      RecentIsShort(times[1..], cutoff);
    }
  }

  // ----- Fixed windows -----

  function Window(time: real, period: nat): int
    requires period > 0
  {
    (time / period as real).Floor
  }

  /** When window `w` opens. */
  function Start(w: int, period: nat): real {
    w as real * period as real
  }

  /** The advertised delay: the period less the whole seconds spent in the current window. */
  function RetryAfter(time: real, period: nat): int
    requires period > 0
  {
    period - (time - Start(Window(time, period), period)).Floor
  }

  lemma Quotient(time: real, p: real)
    requires p > 0.0
    ensures time / p * p == time
  {
  }

  lemma Scale(a: real, b: real, p: real)
    requires p > 0.0
    ensures a <= b <==> a * p <= b * p
  {
  }

  lemma StartBelow(w: int, period: nat, time: real)
    requires period > 0
    ensures w as real <= time / period as real <==> Start(w, period) <= time
  {
    Quotient(time, period as real);
    Scale(w as real, time / period as real, period as real);
  }

  lemma WindowHolds(time: real, period: nat, w: int)
    requires period > 0
    ensures Window(time, period) == w <==> Start(w, period) <= time < Start(w + 1, period)
  {
    StartBelow(w, period, time);
    StartBelow(w + 1, period, time);
  }

  lemma NextStart(w: int, period: nat)
    ensures Start(w + 1, period) == Start(w, period) + period as real
  {
  }

  /** Waiting as advertised always leads into the very next window, at most a second after it opens. */
  lemma RetryReachesNextWindow(time: real, period: nat)
    requires period > 0
    ensures 1 <= RetryAfter(time, period) <= period
    ensures Window(time + RetryAfter(time, period) as real, period) == Window(time, period) + 1
  {
    var w := Window(time, period);
    WindowHolds(time, period, w);
    var start := Start(w, period);
    var spent := (time - start).Floor;
    NextStart(w, period);
    NextStart(w + 1, period);
    WindowHolds(time + RetryAfter(time, period) as real, period, w + 1);
  }

  /** How many hits of `c` fall into window `w`. */
  ghost function InWindow(log: seq<Hit>, c: Client, period: nat, w: int): nat
    requires period > 0
  {
    if log == [] then 0
    else
      var last := log[|log| - 1];
      InWindow(log[..|log| - 1], c, period, w)
      + if last.client == c && Window(last.time, period) == w then 1 else 0
  }

  lemma InWindowSnoc(log: seq<Hit>, h: Hit, c: Client, period: nat, w: int)
    requires period > 0
    ensures InWindow(log + [h], c, period, w)
      == InWindow(log, c, period, w) + if h.client == c && Window(h.time, period) == w then 1 else 0
  {
    assert (log + [h])[..|log|] == log;
  }

  /** An interval of one period meets at most two windows. */
  lemma {:induction false} SpanIsTwoWindows(log: seq<Hit>, c: Client, period: nat, start: real)
    requires period > 0
    ensures Between(log, c, start, start + period as real)
      <= InWindow(log, c, period, Window(start, period)) + InWindow(log, c, period, Window(start, period) + 1)
  {
    if log != [] {
      SpanIsTwoWindows(log[..|log| - 1], c, period, start);
      var time := log[|log| - 1].time;
      var w := Window(start, period);
      WindowHolds(start, period, w);
      if start <= time <= start + period as real {
        WindowHolds(time, period, w);
        WindowHolds(time, period, w + 1);
        NextStart(w, period);
        NextStart(w + 1, period);
      }
    }
  }

  /** No window saw more than `calls`, so no interval of one period saw more than twice that. */
  lemma FixedWindowsBoundSliding(log: seq<Hit>, c: Client, period: nat, calls: nat, start: real)
    requires period > 0
    requires forall w :: InWindow(log, c, period, w) <= calls
    ensures Between(log, c, start, start + period as real) <= 2 * calls
  {
    SpanIsTwoWindows(log, c, period, start);
  }

  datatype Slot = Slot(client: Client, window: int)
  datatype Counter = Counter(count: nat, expires: real)

  datatype Reply = Count(count: nat) | Down

  /** A counter outlives its own window and holds all that was counted in it; of that at most the
      budget of its bucket passed. */
  ghost predicate Lasting(s: Slot, counters: map<Slot, Counter>, counted: seq<Hit>, passed: seq<Hit>, period: nat,
                          budgets: map<Client, nat>)
    requires period > 0
  {
    var n := InWindow(counted, s.client, period, s.window);
    && InWindow(passed, s.client, period, s.window) <= n
    && InWindow(passed, s.client, period, s.window) <= BudgetOf(budgets, s.client)
    && (if s in counters then counters[s].count == n && counters[s].expires >= Start(s.window + 1, period)
        else n == 0)
  }

  ghost predicate AllLasting(counters: map<Slot, Counter>, counted: seq<Hit>, passed: seq<Hit>, period: nat,
                             budgets: map<Client, nat>)
    requires period > 0
  {
    forall s {:trigger Lasting(s, counters, counted, passed, period, budgets)} ::
      Lasting(s, counters, counted, passed, period, budgets)
  }

  /** A counter never expires in its own window. */
  lemma LiveIsExact(counters: map<Slot, Counter>, counted: seq<Hit>, passed: seq<Hit>, period: nat,
                    budgets: map<Client, nat>, s: Slot, time: real)
    requires period > 0 && AllLasting(counters, counted, passed, period, budgets) && s.window == Window(time, period)
    ensures LiveCount(counters, s, time) == InWindow(counted, s.client, period, s.window)
  {
    assert Lasting(s, counters, counted, passed, period, budgets);
    WindowHolds(time, period, s.window);
  }

  /** A key set to expire one period after `time` outlives the window of `time`. */
  lemma ExpiryOutlivesWindow(time: real, period: nat, w: int)
    requires period > 0 && w == Window(time, period)
    ensures time + period as real >= Start(w + 1, period)
  {
    WindowHolds(time, period, w);
    NextStart(w, period);
  }

  lemma CountedIsLasting(counters: map<Slot, Counter>, counted: seq<Hit>, passed: seq<Hit>, period: nat,
                         budgets: map<Client, nat>, s: Slot, time: real)
    requires period > 0 && AllLasting(counters, counted, passed, period, budgets) && s.window == Window(time, period)
    ensures InWindow(counted + [Hit(s.client, time)], s.client, period, s.window) == LiveCount(counters, s, time) + 1
    ensures InWindow(passed, s.client, period, s.window) <= LiveCount(counters, s, time)
    ensures AllLasting(counters[s := Counter(LiveCount(counters, s, time) + 1, time + period as real)],
                       counted + [Hit(s.client, time)], passed, period, budgets)
  {
    var c := Counter(LiveCount(counters, s, time) + 1, time + period as real);
    LiveIsExact(counters, counted, passed, period, budgets, s, time);
    InWindowSnoc(counted, Hit(s.client, time), s.client, period, s.window);
    assert Lasting(s, counters, counted, passed, period, budgets);
    var after := counters[s := c];
    forall z ensures Lasting(z, after, counted + [Hit(s.client, time)], passed, period, budgets) {
      assert Lasting(z, counters, counted, passed, period, budgets);
      InWindowSnoc(counted, Hit(s.client, time), z.client, period, z.window);
      if z == s {
        ExpiryOutlivesWindow(time, period, s.window);
      }
    }
  }

  lemma RaisedIsLasting(counters: map<Slot, Counter>, counted: seq<Hit>, passed: seq<Hit>, period: nat,
                        budgets: map<Client, nat>, client: Client, calls: int)
    requires period > 0 && AllLasting(counters, counted, passed, period, budgets)
    ensures AllLasting(counters, counted, passed, period, Raised(budgets, client, calls))
  {
    forall z ensures Lasting(z, counters, counted, passed, period, Raised(budgets, client, calls)) {
      assert Lasting(z, counters, counted, passed, period, budgets);
    }
  }

  lemma PassedIsLasting(counters: map<Slot, Counter>, counted: seq<Hit>, passed: seq<Hit>, period: nat,
                        budgets: map<Client, nat>, h: Hit, w: int)
    requires period > 0 && AllLasting(counters, counted, passed, period, budgets) && w == Window(h.time, period)
    requires InWindow(passed, h.client, period, w) < InWindow(counted, h.client, period, w)
    requires InWindow(counted, h.client, period, w) <= BudgetOf(budgets, h.client)
    ensures AllLasting(counters, counted, passed + [h], period, budgets)
  {
    forall z ensures Lasting(z, counters, counted, passed + [h], period, budgets) {
      assert Lasting(z, counters, counted, passed, period, budgets);
      InWindowSnoc(passed, h, z.client, period, z.window);
    }
  }

  /** What INCR at `time` starts from: an expired key counts as absent. */
  function LiveCount(counters: map<Slot, Counter>, s: Slot, time: real): nat {
    if s in counters && time < counters[s].expires then counters[s].count else 0
  }

  /** The Redis keys of `_redis_incr`, shared by all workers. */
  class WindowCounters {
    const period: nat

    var counters: map<Slot, Counter>

    /** Every INCR Redis carried out, every request it let through, the last clock reading, the budget of each
        client's bucket. */
    ghost var counted: seq<Hit>
    ghost var passed: seq<Hit>
    ghost var now: real
    ghost var budgets: map<Client, nat>

    constructor (period: nat)
      requires period > 0
      ensures Valid() && this.period == period && counted == [] && passed == [] && now == 0.0
      ensures budgets == map[]
    {
      this.period := period;
      counters := map[];
      counted, passed, now, budgets := [], [], 0.0, map[];
    }

    ghost predicate Valid()
      reads this
    {
      period > 0 && AllLasting(counters, counted, passed, period, budgets)
    }

    /** INCR and EXPIRE of the window's key, one step; Redis may be down, before the step or after it. The request is
        let through if the count is within the budget. */
    method Incr(client: Client, calls: int, time: real) returns (reply: Reply)
      requires Valid() && now <= time
      modifies this
      ensures Valid() && now == time && budgets == Raised(old(budgets), client, calls)
      ensures counted == old(counted) + [Hit(client, time)] || (reply.Down? && counted == old(counted))
      ensures reply.Count? ==> reply.count == InWindow(counted, client, period, Window(time, period))
      ensures passed == if reply.Count? && reply.count <= calls then old(passed) + [Hit(client, time)] else old(passed)
    {
      RaisedIsLasting(counters, counted, passed, period, budgets, client, calls);
      now, budgets := time, Raised(budgets, client, calls);
      var reached: bool := *;
      if !reached {
        return Down;
      }
      var s := Slot(client, Window(time, period));
      var count := LiveCount(counters, s, time) + 1;
      CountedIsLasting(counters, counted, passed, period, budgets, s, time);
      counters := counters[s := Counter(count, time + period as real)];
      counted := counted + [Hit(client, time)];
      var answered: bool := *;
      if !answered {
        return Down;
      }
      if count <= calls {
        PassedIsLasting(counters, counted, passed, period, budgets, Hit(client, time), s.window);
        passed := passed + [Hit(client, time)];
      }
      return Count(count);
    }

    /** Redis lets a client through at most as often as the budget of its bucket says per window, and at most twice as
        often in any closed interval of one period. */
    lemma PassedIsBounded(c: Client, start: real)
      requires Valid()
      ensures forall w :: InWindow(passed, c, period, w) <= BudgetOf(budgets, c)
      ensures Between(passed, c, start, start + period as real) <= 2 * BudgetOf(budgets, c)
    {
      forall w ensures InWindow(passed, c, period, w) <= BudgetOf(budgets, c) {
        assert Lasting(Slot(c, w), counters, counted, passed, period, budgets);
      }
      FixedWindowsBoundSliding(passed, c, period, BudgetOf(budgets, c), start);
    }
  }

  /** `_count_and_check`: Redis decides, or, when it is down, the worker's own window. */
  method CountAndCheck(shared: WindowCounters, local: LocalWindow, client: Client, calls: int, time: real)
    returns (count: nat, allowed: bool, fallback: bool)
    requires shared.Valid() && shared.now <= time && local.Valid() && local.now <= time
    requires local.period == shared.period as real
    modifies shared, local
    ensures shared.Valid() && shared.now <= time && local.Valid() && local.now <= time
    ensures !fallback ==>
      && local.log == old(local.log) && allowed == (count <= calls)
      && count == InWindow(shared.counted, client, shared.period, Window(time, shared.period))
      && shared.passed == if allowed then old(shared.passed) + [Hit(client, time)] else old(shared.passed)
    ensures fallback ==>
      && shared.passed == old(shared.passed)
      && local.log == (if allowed then old(local.log) + [Hit(client, time)] else old(local.log))
      && (|Recent(Times(old(local.log), client), time - local.period)| < calls ==> allowed)
      && (!PoppedSince(local.pops, client, time - local.period) ==>
            allowed == (|Recent(Times(old(local.log), client), time - local.period)| < calls))
  {
    var reply := shared.Incr(client, calls, time);
    match reply
    case Count(n) =>
      count, allowed, fallback := n, n <= calls, false;
    case Down =>
      fallback := true;
      count, allowed := local.IncrAndCheck(client, calls, time);
  }
}
