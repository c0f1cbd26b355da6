/** A fixed-window rate limiter whose expired counters are cleaned up concurrently. Times are
    microseconds of a Unix clock; windows are whole seconds. */
module RateLimit {

  const MICROS := 1_000_000

  /** Limits and windows are at least one. */
  datatype Rule = Rule(endpoint: string, limit: nat, window: nat)

  datatype Settings = Settings(deploy: Rule, test: Rule)

  predicate IsValid(s: Settings) {
    s.deploy.limit >= 1 && s.deploy.window >= 1 && s.test.limit >= 1 && s.test.window >= 1
  }

  predicate IsRule(s: Settings, r: Rule) {
    r == s.deploy || r == s.test
  }

  /** How long counters are kept, in seconds. */
  function Horizon(s: Settings): nat {
    var window := if s.deploy.window >= s.test.window then s.deploy.window else s.test.window;
    if window * 4 >= 60 then window * 4 else 60
  }

  /** The start of the aligned window, in seconds. */
  function WindowStart(now: nat, window: nat): (start: nat)
    requires window >= 1
  {
    var seconds := now / MICROS;
    seconds - seconds % window
  }

  lemma WindowBounds(now: nat, window: nat)
    requires window >= 1
    ensures WindowStart(now, window) * MICROS <= now < (WindowStart(now, window) + window) * MICROS
  {
  }

  datatype Client = Client(workspace: string, ip: string)

  datatype Row = Row(client: Client, endpoint: string, start: nat)

  datatype Event = Request(client: Client, rule: Rule, now: nat) | Cleanup(now: nat)

  type Table = map<Row, nat>

  predicate Known(e: Event, s: Settings) {
    e.Request? ==> IsRule(s, e.rule)
  }

  predicate AllKnown(events: seq<Event>, s: Settings) {
    forall i | 0 <= i < |events| :: Known(events[i], s)
  }

  function RowOf(e: Event): Row
    requires e.Request? && e.rule.window >= 1
  {
    Row(e.client, e.rule.endpoint, WindowStart(e.now, e.rule.window))
  }

  function Lookup(t: Table, row: Row): nat {
    if row in t then t[row] else 0
  }

  predicate IsExpired(row: Row, now: nat, s: Settings) {
    row.start * MICROS < now - Horizon(s) * MICROS
  }

  function Clean(t: Table, now: nat, s: Settings): Table {
    map row | row in t && !IsExpired(row, now, s) :: t[row]
  }

  function Step(t: Table, e: Event, s: Settings): Table
    requires IsValid(s) && Known(e, s)
  {
    match e
    case Request(_, _, _) => t[RowOf(e) := Lookup(t, RowOf(e)) + 1]
    case Cleanup(now) => Clean(t, now, s)
  }

  /** A request passes when its own count does not exceed the limit. */
  predicate Passes(t: Table, e: Event)
    requires e.Request? && e.rule.window >= 1
  {
    Lookup(t, RowOf(e)) + 1 <= e.rule.limit
  }

  /** The table after all events. */
  function After(events: seq<Event>, s: Settings): Table
    requires IsValid(s) && AllKnown(events, s)
  {
    if events == [] then map[]
    else Step(After(events[..|events| - 1], s), events[|events| - 1], s)
  }

  // ---------- the service ----------

  class RateLimiter {
    const settings: Settings
    var table: Table

    constructor (s: Settings)
      ensures settings == s && table == map[]
    {
      settings := s;
      table := map[];
    }

    method IncrementCounter(row: Row) returns (count: nat)
      modifies this
      ensures count == Lookup(old(table), row) + 1 && table == old(table)[row := count]
    {
      count := Lookup(table, row) + 1;
      table := table[row := count];
    }

    method EnforceWindow(client: Client, rule: Rule, now: nat) returns (ok: bool)
      requires IsValid(settings) && IsRule(settings, rule)
      modifies this
      ensures ok == Passes(old(table), Request(client, rule, now))
      ensures table == Step(old(table), Request(client, rule, now), settings)
    {
      var count := IncrementCounter(Row(client, rule.endpoint, WindowStart(now, rule.window)));
      ok := count <= rule.limit;
    }

    method CleanupExpired(now: nat) returns (deleted: nat)
      modifies this
      ensures table == Clean(old(table), now, settings)
      ensures deleted == |old(table)| - |table|
    {
      var kept := Clean(table, now, settings);
      assert kept.Keys <= table.Keys;
      SmallerMap(kept, table);
      deleted := |table| - |kept|;
      table := kept;
    }
  }

  lemma SmallerMap(a: Table, b: Table)
    requires a.Keys <= b.Keys
    ensures |a| <= |b|
  {
    assert |a| == |a.Keys| && |b| == |b.Keys|;
    SmallerSet(a.Keys, b.Keys);
  }

  lemma {:induction false} SmallerSet(a: set<Row>, b: set<Row>)
    requires a <= b
    ensures |a| <= |b|
  {
    assert b == a + (b - a);
  }

  // ---------- cleanup changes no decision ----------

  /** The number of requests that were counted in the row. */
  function CountIn(events: seq<Event>, row: Row, s: Settings): nat
    requires IsValid(s) && AllKnown(events, s)
  {
    if events == [] then 0
    else
      var last := events[|events| - 1];
      CountIn(events[..|events| - 1], row, s) + if last.Request? && RowOf(last) == row then 1 else 0
  }

  /** No cleanup among the events removes the row. */
  predicate Survives(events: seq<Event>, row: Row, s: Settings) {
    forall i | 0 <= i < |events| :: events[i].Cleanup? ==> !IsExpired(row, events[i].now, s)
  }

  lemma {:induction false} TableCounts(events: seq<Event>, row: Row, s: Settings)
    requires IsValid(s) && AllKnown(events, s) && Survives(events, row, s)
    ensures Lookup(After(events, s), row) == CountIn(events, row, s)
  {
    hide WindowStart, IsExpired;
    if events != [] {
      TableCounts(events[..|events| - 1], row, s);
    }
  }

  /** The clock may run back between a cleanup and a later request, but by no more than the
      horizon exceeds the request's window. */
  predicate IsTimely(events: seq<Event>, s: Settings)
    requires AllKnown(events, s)
  {
    forall i, j | 0 <= i < j < |events| ::
      events[i].Cleanup? && events[j].Request? ==>
        events[j].now + (Horizon(s) - events[j].rule.window) * MICROS >= events[i].now
  }

  predicate IsMonotone(events: seq<Event>) {
    forall i, j | 0 <= i < j < |events| :: events[i].now <= events[j].now
  }

  /** A clock that never runs back is timely: the horizon is four windows. */
  lemma MonotoneIsTimely(events: seq<Event>, s: Settings)
    requires IsValid(s) && AllKnown(events, s) && IsMonotone(events)
    ensures IsTimely(events, s)
  {
    forall i, j | 0 <= i < j < |events| && events[i].Cleanup? && events[j].Request?
      ensures events[j].now + (Horizon(s) - events[j].rule.window) * MICROS >= events[i].now
    {
      assert Known(events[j], s);
      assert events[i].now <= events[j].now;
    }
  }

  /** A cleanup keeps a counter, with its count, exactly if its window began no longer ago than
      four windows of one of the rules, or than a minute. */
  lemma CleanupKeeps(t: Table, now: nat, s: Settings, row: Row)
    ensures var age := now - row.start * 1_000_000;
            row in Clean(t, now, s) <==>
              row in t && (age <= 4_000_000 * s.deploy.window || age <= 4_000_000 * s.test.window || age <= 60_000_000)
    ensures row in Clean(t, now, s) ==> Clean(t, now, s)[row] == t[row]
  {
    var window := if s.deploy.window >= s.test.window then s.deploy.window else s.test.window;
    assert 4_000_000 * window == window * 4 * MICROS;
  }

  /** No decision changes as long as the clock never runs back by more than three windows of the
      request's rule, nor by more than the rest of a minute behind its window. */
  lemma ThreeWindowsAreTimely(events: seq<Event>, s: Settings)
    requires IsValid(s) && AllKnown(events, s)
    requires forall i, j | 0 <= i < j < |events| && events[i].Cleanup? && events[j].Request? ::
               events[i].now <= events[j].now + 3_000_000 * events[j].rule.window
               || events[i].now + 1_000_000 * events[j].rule.window <= events[j].now + 60_000_000
    ensures IsTimely(events, s)
  {
    forall i, j | 0 <= i < j < |events| && events[i].Cleanup? && events[j].Request?
      ensures events[j].now + (Horizon(s) - events[j].rule.window) * MICROS >= events[i].now
    {
      assert Known(events[j], s);
      var w := events[j].rule.window;
      assert Horizon(s) >= 4 * w && Horizon(s) >= 60;
      assert (Horizon(s) - w) * MICROS >= 3_000_000 * w && (Horizon(s) - w) * MICROS + 1_000_000 * w >= 60_000_000;
    }
  }

  lemma RequestSurvives(events: seq<Event>, e: Event, s: Settings)
    requires IsValid(s) && AllKnown(events + [e], s) && IsTimely(events + [e], s) && e.Request?
    ensures Known(e, s) && AllKnown(events, s) && Survives(events, RowOf(e), s)
  {
    var all := events + [e];
    assert Known(all[|events|], s);
    assert forall i | 0 <= i < |events| :: all[i] == events[i];
    WindowBounds(e.now, e.rule.window);
    forall i | 0 <= i < |events| && events[i].Cleanup? ensures !IsExpired(RowOf(e), events[i].now, s) {
      assert all[i].Cleanup? && all[|events|].Request?;
    }
  }

  function Requests(events: seq<Event>): seq<Event> {
    if events == [] then []
    else
      var last := events[|events| - 1];
      Requests(events[..|events| - 1]) + if last.Request? then [last] else []
  }

  lemma {:induction false} CountAppend(events: seq<Event>, e: Event, row: Row, s: Settings)
    requires IsValid(s) && AllKnown(events, s) && Known(e, s)
    ensures AllKnown(events + [e], s)
    ensures CountIn(events + [e], row, s) == CountIn(events, row, s) + if e.Request? && RowOf(e) == row then 1 else 0
  {
    hide WindowStart;
    assert (events + [e])[..|events|] == events;
  }

  lemma {:induction false} RequestsKnown(events: seq<Event>, s: Settings)
    requires AllKnown(events, s)
    ensures AllKnown(Requests(events), s) && forall i | 0 <= i < |Requests(events)| :: Requests(events)[i].Request?
  {
    if events != [] {
      RequestsKnown(events[..|events| - 1], s);
    }
  }

  lemma {:induction false} RequestsCount(events: seq<Event>, row: Row, s: Settings)
    requires IsValid(s) && AllKnown(events, s)
    ensures AllKnown(Requests(events), s) && Survives(Requests(events), row, s)
    ensures CountIn(Requests(events), row, s) == CountIn(events, row, s)
  {
    hide CountIn, WindowStart, IsExpired, Known;
    RequestsKnown(events, s);
    if events != [] {
      var front, last := events[..|events| - 1], events[|events| - 1];
      assert events == front + [last];
      assert Known(last, s);
      RequestsCount(front, row, s);
      CountAppend(front, last, row, s);
      if last.Request? {
        CountAppend(Requests(front), last, row, s);
      } else {
        assert Requests(front) + [] == Requests(front);
      }
    }
  }

  /** Exactly the first `limit` requests of a client in a window pass, and the limiter decides
      as one that never cleans up. */
  lemma CleanupIsInvisible(events: seq<Event>, e: Event, s: Settings)
    requires IsValid(s) && AllKnown(events + [e], s) && IsTimely(events + [e], s) && e.Request?
    ensures Known(e, s) && AllKnown(events, s) && AllKnown(Requests(events), s)
    ensures Passes(After(events, s), e) <==> CountIn(events, RowOf(e), s) < e.rule.limit
    ensures Passes(After(events, s), e) <==> Passes(After(Requests(events), s), e)
  {
    hide After, CountIn, WindowStart, IsTimely, Survives;
    RequestSurvives(events, e, s);
    TableCounts(events, RowOf(e), s);
    RequestsCount(events, RowOf(e), s);
    TableCounts(Requests(events), RowOf(e), s);
  }

  // ---------- how many pass ----------

  /** The number of requests counted in the row that passed. */
  function PassedIn(events: seq<Event>, row: Row, s: Settings): nat
    requires IsValid(s) && AllKnown(events, s)
  {
    if events == [] then 0
    else
      var front, last := events[..|events| - 1], events[|events| - 1];
      PassedIn(front, row, s) + if last.Request? && RowOf(last) == row && Passes(After(front, s), last) then 1 else 0
  }

  /** All requests of a row come from rules with this limit. */
  predicate HasLimit(events: seq<Event>, row: Row, limit: nat, s: Settings)
    requires IsValid(s) && AllKnown(events, s)
  {
    forall i | 0 <= i < |events| ::
      events[i].Request? && Known(events[i], s) && RowOf(events[i]) == row ==> events[i].rule.limit == limit
  }

  lemma PrefixIsTimely(events: seq<Event>, n: nat, s: Settings)
    requires n <= |events| && AllKnown(events, s) && IsTimely(events, s)
    ensures AllKnown(events[..n], s) && IsTimely(events[..n], s)
  {
    var front := events[..n];
    forall i, j | 0 <= i < j < n && front[i].Cleanup? && front[j].Request?
      ensures front[j].now + (Horizon(s) - front[j].rule.window) * MICROS >= front[i].now
    {
      assert events[i].Cleanup? && events[j].Request?;
    }
  }

  /** In every row exactly as many requests pass as were counted, up to the limit. */
  lemma {:induction false} RowPasses(events: seq<Event>, row: Row, limit: nat, s: Settings)
    requires IsValid(s) && AllKnown(events, s) && IsTimely(events, s) && HasLimit(events, row, limit, s)
    ensures PassedIn(events, row, s) == if CountIn(events, row, s) <= limit then CountIn(events, row, s) else limit
  {
    hide After, WindowStart, IsTimely, Passes, Known;
    if events != [] {
      var front, last := events[..|events| - 1], events[|events| - 1];
      assert events == front + [last];
      PrefixIsTimely(events, |events| - 1, s);
      assert forall i | 0 <= i < |front| :: front[i] == events[i];
      RowPasses(front, row, limit, s);
      if last.Request? {
        assert Known(last, s);
        CleanupIsInvisible(front, last, s);
      }
    }
  }

  /** The requests of one client and rule that passed within one window's length from `from`. */
  function PassedFrom(events: seq<Event>, client: Client, rule: Rule, from: nat, s: Settings): nat
    requires IsValid(s) && AllKnown(events, s)
  {
    if events == [] then 0
    else
      var front, last := events[..|events| - 1], events[|events| - 1];
      PassedFrom(front, client, rule, from, s)
      + if IsWithin(last, client, rule, from) && Known(last, s) && last.rule.window >= 1 && Passes(After(front, s), last) then 1 else 0
  }

  predicate IsWithin(e: Event, client: Client, rule: Rule, from: nat) {
    e.Request? && e.client == client && e.rule == rule && from <= e.now < from + rule.window * MICROS
  }

  lemma WindowOf(now: nat, window: nat)
    requires window >= 1
    ensures WindowStart(now, window) == window * (now / MICROS / window)
  {
  }

  lemma TimesOrder(window: nat, x: nat, y: nat)
    ensures x <= y ==> window * x <= window * y
  {
  }

  lemma Neighbours(window: nat, q: nat, r: nat, p: nat, t: nat)
    requires r < window && t < window && window * q + r <= window * p + t <= window * q + r + window
    ensures p == q || p == q + 1
  {
    TimesOrder(window, p + 1, q);
    TimesOrder(window, q + 2, p);
    assert window * (p + 1) == window * p + window && window * (q + 2) == window * q + window + window;
  }

  lemma Quotients(a: nat, b: nat, window: nat)
    requires window >= 1 && a <= b <= a + window
    ensures b / window == a / window || b / window == a / window + 1
  {
    Neighbours(window, a / window, a % window, b / window, b % window);
  }

  /** An interval one window long meets at most two aligned windows. */
  lemma TwoWindows(from: nat, now: nat, window: nat)
    requires window >= 1 && from <= now < from + window * MICROS
    ensures WindowStart(now, window) == WindowStart(from, window) || WindowStart(now, window) == WindowStart(from, window) + window
  {
    WindowOf(now, window);
    WindowOf(from, window);
    var a, b, k := from / MICROS, now / MICROS, now / MICROS / window;
    assert a <= b <= a + window;
    Quotients(a, b, window);
    assert window * (a / window + 1) == window * (a / window) + window;
  }

  lemma {:induction false} PassedFromSplits(events: seq<Event>, client: Client, rule: Rule, from: nat, s: Settings)
    requires IsValid(s) && IsRule(s, rule) && AllKnown(events, s)
    ensures var start := WindowStart(from, rule.window);
            PassedFrom(events, client, rule, from, s)
            <= PassedIn(events, Row(client, rule.endpoint, start), s) + PassedIn(events, Row(client, rule.endpoint, start + rule.window), s)
  {
    hide After, WindowStart, Passes;
    if events != [] {
      var last := events[|events| - 1];
      PassedFromSplits(events[..|events| - 1], client, rule, from, s);
      if IsWithin(last, client, rule, from) {
        TwoWindows(from, last.now, rule.window);
      }
    }
  }

  /** The two rules have different endpoints, so that a counter belongs to one rule. */
  predicate AreSeparate(s: Settings) {
    s.deploy.endpoint != s.test.endpoint
  }

  lemma EndpointHasLimit(events: seq<Event>, row: Row, rule: Rule, s: Settings)
    requires IsValid(s) && AreSeparate(s) && IsRule(s, rule) && AllKnown(events, s) && row.endpoint == rule.endpoint
    ensures HasLimit(events, row, rule.limit, s)
  {
  }

  /** In no half-open interval one window long do more than twice the limit pass. */
  lemma AtMostTwice(events: seq<Event>, client: Client, rule: Rule, from: nat, s: Settings)
    requires IsValid(s) && AreSeparate(s) && IsRule(s, rule) && AllKnown(events, s) && IsTimely(events, s)
    ensures PassedFrom(events, client, rule, from, s) <= 2 * rule.limit
  {
    hide PassedFrom, PassedIn, IsTimely, WindowStart, HasLimit, CountIn;
    var start := WindowStart(from, rule.window);
    var row, next := Row(client, rule.endpoint, start), Row(client, rule.endpoint, start + rule.window);
    PassedFromSplits(events, client, rule, from, s);
    EndpointHasLimit(events, row, rule, s);
    EndpointHasLimit(events, next, rule, s);
    RowPasses(events, row, rule.limit, s);
    RowPasses(events, next, rule.limit, s);
  }

  // ---------- the bound is reached ----------

  function Repeat(e: Event, n: nat): seq<Event> {
    if n == 0 then [] else Repeat(e, n - 1) + [e]
  }

  lemma {:induction false} RepeatKnown(e: Event, n: nat)
    ensures |Repeat(e, n)| == n && forall i | 0 <= i < n :: Repeat(e, n)[i] == e
  {
    if n > 0 { RepeatKnown(e, n - 1); }
  }

  lemma {:induction false} PassedAppend(events: seq<Event>, e: Event, client: Client, rule: Rule, from: nat, s: Settings)
    requires IsValid(s) && AllKnown(events, s) && Known(e, s) && e.Request? && e.rule.window >= 1
    ensures AllKnown(events + [e], s)
    ensures PassedFrom(events + [e], client, rule, from, s)
         == PassedFrom(events, client, rule, from, s)
            + if IsWithin(e, client, rule, from) && Passes(After(events, s), e) then 1 else 0
  {
    assert (events + [e])[..|events|] == events;
  }

  /** As many requests as the limit allows in one window all pass. */
  lemma {:induction false} BurstPasses(events: seq<Event>, e: Event, n: nat, from: nat, s: Settings)
    requires IsValid(s) && AllKnown(events, s) && Known(e, s) && e.Request?
    requires forall i | 0 <= i < |events| :: events[i].Request?
    requires IsWithin(e, e.client, e.rule, from) && CountIn(events, RowOf(e), s) == 0 && n <= e.rule.limit
    ensures AllKnown(events + Repeat(e, n), s) && CountIn(events + Repeat(e, n), RowOf(e), s) == n
    ensures PassedFrom(events + Repeat(e, n), e.client, e.rule, from, s) == PassedFrom(events, e.client, e.rule, from, s) + n
  {
    hide After, CountIn, PassedFrom, WindowStart, IsTimely;
    RepeatKnown(e, n);
    if n == 0 {
      assert events + Repeat(e, 0) == events;
    } else {
      var before := events + Repeat(e, n - 1);
      RepeatKnown(e, n - 1);
      assert events + Repeat(e, n) == before + [e];
      BurstPasses(events, e, n - 1, from, s);
      CountAppend(before, e, RowOf(e), s);
      PassedAppend(before, e, e.client, e.rule, from, s);
      OnlyRequestsTimely(before + [e], s);
      CleanupIsInvisible(before, e, s);
    }
  }

  lemma OnlyRequestsTimely(events: seq<Event>, s: Settings)
    requires AllKnown(events, s) && forall i | 0 <= i < |events| :: events[i].Request?
    ensures IsTimely(events, s)
  {
  }

  lemma {:induction false} NoneCounted(events: seq<Event>, row: Row, s: Settings)
    requires IsValid(s) && AllKnown(events, s) && forall i | 0 <= i < |events| :: events[i].Request? && Known(events[i], s) && RowOf(events[i]) != row
    ensures CountIn(events, row, s) == 0
  {
    hide WindowStart;
    if events != [] { NoneCounted(events[..|events| - 1], row, s); }
  }

  /** Twice the limit can pass within two microseconds, at a boundary between two windows. */
  lemma TwiceIsReached(client: Client, rule: Rule, s: Settings)
    requires IsValid(s) && IsRule(s, rule)
    ensures var boundary := rule.window * MICROS;
            var events := Repeat(Request(client, rule, boundary - 1), rule.limit) + Repeat(Request(client, rule, boundary), rule.limit);
            AllKnown(events, s) && IsMonotone(events) && PassedFrom(events, client, rule, boundary - 1, s) == 2 * rule.limit
  {
    hide After, CountIn, PassedFrom, WindowStart;
    var boundary := rule.window * MICROS;
    var e, f := Request(client, rule, boundary - 1), Request(client, rule, boundary);
    var first := Repeat(e, rule.limit);
    RepeatKnown(e, rule.limit);
    RepeatKnown(f, rule.limit);
    Boundary(rule.window);
    NothingYet(client, rule, boundary - 1, RowOf(e), s);
    BurstPasses([], e, rule.limit, boundary - 1, s);
    assert [] + first == first;
    NoneCounted(first, RowOf(f), s);
    BurstPasses(first, f, rule.limit, boundary - 1, s);
  }

  lemma NothingYet(client: Client, rule: Rule, from: nat, row: Row, s: Settings)
    requires IsValid(s)
    ensures PassedFrom([], client, rule, from, s) == 0 && CountIn([], row, s) == 0
  {
  }

  lemma Boundary(window: nat)
    requires window >= 1
    ensures WindowStart(window * MICROS, window) == window && WindowStart(window * MICROS - 1, window) == 0
  {
    assert (window * MICROS - 1) / MICROS == window - 1;
    assert (window - 1) % window == window - 1;
  }
}
