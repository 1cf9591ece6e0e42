/** The byte counters and the three-second averaging window of one connection. */
module TrafficTheorems {
  import opened Words
  import opened Packets
  import opened ConnectionSpec

  // ---------------------------------------------------------------- erasing a tail against filtering

  /** The entries newer than the limit, wherever they stand. */
  function Keep(s: seq<AvgStat>, limit: int): seq<AvgStat> {
    if s == [] then [] else (if s[0].ts > limit then [s[0]] else []) + Keep(s[1..], limit)
  }

  ghost predicate NewestFirst(s: seq<AvgStat>) {
    forall i, j :: 0 <= i < j < |s| ==> s[i].ts >= s[j].ts
  }

  ghost predicate NoFreshBehindStale(s: seq<AvgStat>, limit: int) {
    forall i, j :: 0 <= i < j < |s| && s[j].ts > limit ==> s[i].ts > limit
  }

  /** What is kept in front of the first stale entry is a prefix without stale entries, as long as possible. */
  lemma {:induction false} BeforeStaleIsPrefix(s: seq<AvgStat>, limit: U64)
    ensures var k := |BeforeStale(s, limit)|;
            && k <= |s| && BeforeStale(s, limit) == s[..k]
            && (forall i :: 0 <= i < k ==> s[i].ts > limit)
            && (k < |s| ==> s[k].ts <= limit)
  {
    if s != [] && s[0].ts > limit {
      BeforeStaleIsPrefix(s[1..], limit);
    }
  }

  lemma {:induction false} KeepKeepsFresh(s: seq<AvgStat>, limit: int)
    ensures forall i :: 0 <= i < |s| && s[i].ts > limit ==> s[i] in Keep(s, limit)
    ensures forall e :: e in Keep(s, limit) ==> e.ts > limit
    ensures (forall i :: 0 <= i < |s| ==> s[i].ts <= limit) ==> Keep(s, limit) == []
  {
    if s != [] {
      KeepKeepsFresh(s[1..], limit);
    }
  }

  lemma NoFreshBehindStaleTail(s: seq<AvgStat>, limit: int)
    requires s != []
    ensures NoFreshBehindStale(s, limit) <==>
            NoFreshBehindStale(s[1..], limit) &&
            (s[0].ts <= limit ==> forall j :: 0 <= j < |s[1..]| ==> s[1..][j].ts <= limit)
  {
    assert forall j :: 0 <= j < |s[1..]| ==> s[1..][j] == s[j + 1];
    assert forall j :: 0 < j < |s| ==> s[j] == s[1..][j - 1];
  }

  /** Erasing from the first stale entry on is the filter that is meant exactly when no fresh entry
      stands behind a stale one. */
  lemma {:induction false} TailEraseIsFilterIff(s: seq<AvgStat>, limit: U64)
    ensures BeforeStale(s, limit) == Keep(s, limit) <==> NoFreshBehindStale(s, limit)
  {
    if s != [] {
      TailEraseIsFilterIff(s[1..], limit);
      NoFreshBehindStaleTail(s, limit);
      if s[0].ts > limit {
        assert BeforeStale(s, limit)[1..] == BeforeStale(s[1..], limit);
        assert Keep(s, limit)[1..] == Keep(s[1..], limit);
      } else {
        assert BeforeStale(s, limit) == [] && Keep(s, limit) == Keep(s[1..], limit);
        KeepKeepsFresh(s[1..], limit);
        if Keep(s[1..], limit) == [] { StaleIsTidy(s[1..], limit); }
      }
    }
  }

  lemma StaleIsTidy(s: seq<AvgStat>, limit: int)
    requires Keep(s, limit) == []
    ensures (forall j :: 0 <= j < |s| ==> s[j].ts <= limit) && NoFreshBehindStale(s, limit)
  {
    KeepKeepsFresh(s, limit);
  }

  lemma {:induction false} KeepsAllOlder(s: seq<AvgStat>, limit: int)
    requires limit < 0
    ensures Keep(s, limit) == s
  {
    if s != [] {
      KeepsAllOlder(s[1..], limit);
    }
  }

  /** For every reading of the clock, what the purge leaves is what lies less than three seconds back exactly when,
      past the first three seconds of the epoch, no such entry stands behind an older one; within them the limit wraps
      around, and nothing may be on the window but stamps from the last three seconds before the 64-bit clock overflows. */
  lemma PurgeIsThreeSecondsIff(s: seq<AvgStat>, purgeUs: U64)
    ensures BeforeStale(s, Limit(purgeUs)) == Keep(s, purgeUs - 3_000_000) <==>
              if purgeUs >= 3_000_000 then NoFreshBehindStale(s, purgeUs - 3_000_000)
              else forall i :: 0 <= i < |s| ==> s[i].ts > TWO64 - 3_000_000 + purgeUs
  {
    hide Keep, BeforeStale, Limit, NoFreshBehindStale;
    LimitWraps(purgeUs);
    if purgeUs >= WINDOW {
      TailEraseIsFilterIff(s, Limit(purgeUs));
    } else {
      KeepsAllOlder(s, purgeUs - WINDOW);
      BeforeStaleIsPrefix(s, Limit(purgeUs));
    }
  }

  /** Two seconds past the epoch every entry is erased, however young and wherever it stands. */
  lemma EarlyPurgeExample(size: U32)
    ensures var e := AvgStat(1_900_000, size);
            BeforeStale([e], Limit(2_000_000)) == [] && Keep([e], 2_000_000 - 3_000_000) == [e]
  {
    LimitWraps(2_000_000);
    KeepsAllOlder([AvgStat(1_900_000, size)], 2_000_000 - WINDOW);
  }

  lemma LimitWraps(purgeUs: U64)
    ensures Limit(purgeUs) == if purgeUs >= WINDOW then purgeUs - WINDOW else TWO64 - WINDOW + purgeUs
  {
  }

  lemma {:induction false} KeepTwice(s: seq<AvgStat>, low: int, high: int)
    requires low <= high
    ensures Keep(Keep(s, low), high) == Keep(s, high)
  {
    if s != [] {
      KeepTwice(s[1..], low, high);
      if s[0].ts > low {
        assert Keep(s, low)[1..] == Keep(s[1..], low);
      } else {
        assert Keep(s, low) == Keep(s[1..], low);
      }
    }
  }

  // ---------------------------------------------------------------- the window over a run

  /** Every entry a run has pushed, newest first, purged or not. */
  function Pushed(c: Conn, es: seq<Event>): seq<AvgStat> {
    if es == [] then [] else
      var before, e := es[..|es| - 1], es[|es| - 1];
      if e.Tick? then [AvgStat(e.stampUs, Run(c, before).traffic.interval)] + Pushed(c, before) else Pushed(c, before)
  }

  /** The last clock reading of a run; the clock starts past the first three seconds of the epoch. */
  function LastReading(es: seq<Event>): int {
    if es == [] then WINDOW
    else if es[|es| - 1].Tick? then es[|es| - 1].stampUs
    else LastReading(es[..|es| - 1])
  }

  /** The reading that the last purge compared with, if any tick happened. */
  function LastPurge(es: seq<Event>): int {
    if es == [] then WINDOW
    else if es[|es| - 1].Tick? then es[|es| - 1].purgeUs
    else LastPurge(es[..|es| - 1])
  }

  predicate ClockForward(es: seq<Event>) {
    es == [] ||
    var before, e := es[..|es| - 1], es[|es| - 1];
    ClockForward(before) && (e.Tick? ==> LastReading(before) <= e.purgeUs <= e.stampUs)
  }

  lemma {:induction false} PushedInOrder(c: Conn, es: seq<Event>)
    requires ClockForward(es)
    ensures NewestFirst(Pushed(c, es))
    ensures forall i :: 0 <= i < |Pushed(c, es)| ==> Pushed(c, es)[i].ts <= LastReading(es)
    ensures WINDOW <= LastPurge(es) <= LastReading(es)
  {
    if es != [] {
      PushedInOrder(c, es[..|es| - 1]);
    }
  }

  lemma NewestFirstIsTidy(s: seq<AvgStat>, limit: int)
    requires NewestFirst(s)
    ensures NoFreshBehindStale(s, limit)
  {
  }

  /** Whatever the clock does, the window is the newest part of the tick history: only old ends are dropped. */
  lemma {:induction false} WindowIsPrefixOfHistory(c: Conn, es: seq<Event>)
    requires c.traffic.avgstack == []
    ensures Run(c, es).traffic.avgstack <= Pushed(c, es)
  {
    if es != [] {
      var before, e := es[..|es| - 1], es[|es| - 1];
      WindowIsPrefixOfHistory(c, before);
      if e.Tick? {
        BeforeStaleIsPrefix(Run(c, before).traffic.avgstack, Limit(e.purgeUs));
      }
    }
  }

  /** One tick on a window that is a filtered history. */
  lemma RefreshFilters(t: Traffic, pushed: seq<AvgStat>, low: int, purgeUs: U64, stampUs: U64)
    requires t.avgstack == Keep(pushed, low) && NewestFirst(t.avgstack)
    requires low <= purgeUs - WINDOW && WINDOW <= purgeUs <= stampUs
    ensures Refresh(t, purgeUs, stampUs).avgstack == Keep([AvgStat(stampUs, t.interval)] + pushed, purgeUs - WINDOW)
  {
    var limit := purgeUs - WINDOW;
    assert Limit(purgeUs) == limit;
    NewestFirstIsTidy(t.avgstack, limit);
    TailEraseIsFilterIff(t.avgstack, limit);
    KeepTwice(pushed, low, limit);
    var longer := [AvgStat(stampUs, t.interval)] + pushed;
    assert longer[1..] == pushed;
  }

  /** Under a clock that does not run backwards the window is the tick history restricted to the last three
      seconds before the latest purge, in order, for every interleaving of packets and ticks. */
  lemma {:induction false} WindowIsHistory(c: Conn, es: seq<Event>)
    requires c.traffic.avgstack == [] && ClockForward(es)
    ensures Run(c, es).traffic.avgstack == Keep(Pushed(c, es), LastPurge(es) - WINDOW)
  {
    hide Keep;
    if es == [] {
      assert Keep([], LastPurge(es) - WINDOW) == [] by { KeepKeepsFresh([], LastPurge(es) - WINDOW); }
    } else {
      var before, e := es[..|es| - 1], es[|es| - 1];
      WindowIsHistory(c, before);
      if e.Tick? {
        WindowInOrder(c, before);
        PushedInOrder(c, before);
        RefreshFilters(Run(c, before).traffic, Pushed(c, before), LastPurge(before) - WINDOW, e.purgeUs, e.stampUs);
      }
    }
  }

  /** The window is newest first, and everything on it lies within the last purge's three seconds and the last reading. */
  lemma WindowInOrder(c: Conn, es: seq<Event>)
    requires c.traffic.avgstack == [] && ClockForward(es)
    ensures NewestFirst(Run(c, es).traffic.avgstack)
    ensures forall i :: 0 <= i < |Run(c, es).traffic.avgstack| ==> Run(c, es).traffic.avgstack[i].ts <= LastReading(es)
  {
    hide Run, Pushed;
    WindowIsPrefixOfHistory(c, es);
    PushedInOrder(c, es);
  }

  lemma WindowIsRecent(c: Conn, es: seq<Event>)
    requires c.traffic.avgstack == [] && ClockForward(es)
    ensures forall e :: e in Run(c, es).traffic.avgstack ==> e.ts > LastPurge(es) - WINDOW
  {
    hide Run, Pushed, Keep;
    WindowIsHistory(c, es);
    KeepKeepsFresh(Pushed(c, es), LastPurge(es) - WINDOW);
  }

  ghost predicate Spaced(s: seq<AvgStat>, r: int) {
    forall i :: 0 <= i && i + 1 < |s| ==> s[i].ts >= s[i + 1].ts + r
  }

  lemma {:induction false} SpacedSpan(s: seq<AvgStat>, r: int)
    requires Spaced(s, r) && s != []
    ensures (|s| - 1) * r <= s[0].ts - s[|s| - 1].ts
  {
    if |s| > 1 {
      assert forall i :: 0 <= i < |s[1..]| ==> s[1..][i] == s[i + 1];
      SpacedSpan(s[1..], r);
      assert (|s| - 1) * r == (|s| - 2) * r + r;
    }
  }

  /** The window cannot grow without bound: ticks r microseconds apart leave fewer than 3000000 / r + 1 entries
      (t is the time between the two clock readings of the last tick). */
  lemma WindowIsBounded(c: Conn, es: seq<Event>, r: int)
    requires c.traffic.avgstack == [] && ClockForward(es) && Spaced(Pushed(c, es), r)
    requires Run(c, es).traffic.avgstack != []
    ensures var t := LastReading(es) - LastPurge(es);
            (|Run(c, es).traffic.avgstack| - 1) * r < WINDOW + t
  {
    hide Run, Pushed;
    var s := Run(c, es).traffic.avgstack;
    WindowIsRecent(c, es);
    WindowInOrder(c, es);
    WindowIsPrefixOfHistory(c, es);
    SpacedSpan(s, r);
    assert s[|s| - 1] in s;
  }

  // ---------------------------------------------------------------- conservation of bytes

  function SumLengths(h: seq<Packet>): nat {
    if h == [] then 0 else SumLengths(h[..|h| - 1]) + h[|h| - 1].totalLen
  }

  function Sum(s: seq<nat>): nat {
    if s == [] then 0 else s[0] + Sum(s[1..])
  }

  /** Bytes truly received since the last tick. */
  function OpenInterval(c: Conn, es: seq<Event>): nat {
    if es == [] then c.traffic.interval else
      var before, e := es[..|es| - 1], es[|es| - 1];
      if e.Tick? then 0
      else if e.Arrival? && Accepts(Run(c, before), e.packet) then OpenInterval(c, before) + e.packet.totalLen
      else OpenInterval(c, before)
  }

  /** Bytes truly received in each completed interval, newest first. */
  function ClosedIntervals(c: Conn, es: seq<Event>): seq<nat> {
    if es == [] then [] else
      var before, e := es[..|es| - 1], es[|es| - 1];
      if e.Tick? then [OpenInterval(c, before)] + ClosedIntervals(c, before) else ClosedIntervals(c, before)
  }

  /** The totals count every accepted packet once, ticks not at all. */
  lemma {:induction false} TotalsCountLog(c: Conn, es: seq<Event>)
    ensures Run(c, es).traffic.bytes == c.traffic.bytes + SumLengths(Log(c, es))
    ensures Run(c, es).traffic.packets == c.traffic.packets + |Log(c, es)|
  {
    if es != [] {
      var before, e := es[..|es| - 1], es[|es| - 1];
      TotalsCountLog(c, before);
      if e.Arrival? && Accepts(Run(c, before), e.packet) {
        assert Log(c, es)[..|Log(c, es)| - 1] == Log(c, before);
      }
    }
  }

  /** A connection counts from the packet that opens it: totals, intervals and rate start with that packet alone. */
  lemma CountsFromTheFirst(p: Packet, now: int, es: seq<Event>)
    ensures var c := Open(p, now);
            var t := Run(c, es).traffic;
            && c.traffic.avgstack == []
            && t.packets == 1 + |Log(c, es)| && t.bytes == p.totalLen + SumLengths(Log(c, es))
            && t.bytes == Sum(ClosedIntervals(c, es)) + OpenInterval(c, es)
            && ((forall i :: 0 <= i < |es| ==> !es[i].Redraw?) ==> Run(c, es).rate == 0)
  {
    hide Run, Log, ClosedIntervals, OpenInterval;
    TotalsCountLog(Open(p, now), es);
    IntervalsWrap(Open(p, now), es);
    if forall i :: 0 <= i < |es| ==> !es[i].Redraw? {
      OnlyRedrawsRate(Open(p, now), es);
    }
  }

  lemma {:induction false} OnlyRedrawsRate(c: Conn, es: seq<Event>)
    requires forall i :: 0 <= i < |es| ==> !es[i].Redraw?
    ensures Run(c, es).rate == c.rate
  {
    hide Accepts, Follow, Count, Refresh, Rate;
    if es != [] {
      OnlyRedrawsRate(c, es[..|es| - 1]);
    }
  }

  /** The int and the long that hold the totals (64 bits wide) hold them exactly as long as the log is short enough;
      what a signed overflow leaves is undefined. */
  predicate TotalsFit(t: Traffic) {
    t.packets < 0x8000_0000 && t.bytes < 0x8000_0000_0000_0000
  }

  lemma TotalsFitIff(c: Conn, es: seq<Event>)
    ensures TotalsFit(Run(c, es).traffic) <==>
              && |Log(c, es)| < 0x8000_0000 - c.traffic.packets
              && SumLengths(Log(c, es)) < 0x8000_0000_0000_0000 - c.traffic.bytes
  {
    TotalsCountLog(c, es);
  }

  lemma WrapBelow(x: nat)
    ensures Wrap32(x) <= x
    ensures Wrap32(x) == x <==> x < TWO32
  {
  }

  /** Each stored size is the true byte count of its interval modulo 2^32, and the true counts add up to the total. */
  lemma {:induction false} IntervalsWrap(c: Conn, es: seq<Event>)
    requires c.traffic.bytes == c.traffic.interval
    ensures |Pushed(c, es)| == |ClosedIntervals(c, es)|
    ensures forall i :: 0 <= i < |Pushed(c, es)| ==> Pushed(c, es)[i].size == Wrap32(ClosedIntervals(c, es)[i])
    ensures Run(c, es).traffic.interval == Wrap32(OpenInterval(c, es))
    ensures Run(c, es).traffic.bytes == Sum(ClosedIntervals(c, es)) + OpenInterval(c, es)
  {
    hide BeforeStale, Rate, Follow;
    if es != [] {
      var before, e := es[..|es| - 1], es[|es| - 1];
      IntervalsWrap(c, before);
      if e.Arrival? && Accepts(Run(c, before), e.packet) {
        WrapAdd(OpenInterval(c, before), e.packet.totalLen);
      }
      if e.Tick? {
        assert ClosedIntervals(c, es)[1..] == ClosedIntervals(c, before);
      }
    }
  }

  lemma {:induction false} SumSplit(s: seq<AvgStat>, n: nat)
    requires n <= |s|
    ensures SumSizes(s) == SumSizes(s[..n]) + SumSizes(s[n..])
  {
    if n > 0 {
      SumSplit(s[1..], n - 1);
      assert s[..n][1..] == s[1..][..n - 1] && s[n..] == s[1..][n - 1..];
    } else {
      assert s[0..] == s;
    }
  }

  /** Wrapped sizes add up to the true counts exactly when none wrapped. */
  lemma {:induction false} WrappedSum(s: seq<AvgStat>, t: seq<nat>)
    requires |s| == |t| && forall i :: 0 <= i < |s| ==> s[i].size == Wrap32(t[i])
    ensures SumSizes(s) <= Sum(t)
    ensures SumSizes(s) == Sum(t) <==> forall i :: 0 <= i < |t| ==> t[i] < TWO32
  {
    if s != [] {
      assert forall i :: 0 <= i < |s[1..]| ==> s[1..][i] == s[i + 1] && t[1..][i] == t[i + 1];
      WrappedSum(s[1..], t[1..]);
      assert s[0].size == Wrap32(t[0]) <= t[0];
      assert s[0].size == t[0] <==> t[0] < TWO32;
      assert (forall i :: 0 <= i < |t| ==> t[i] < TWO32) <==>
             (t[0] < TWO32 && forall i :: 0 <= i < |t[1..]| ==> t[1..][i] < TWO32) by {
        assert forall i :: 0 < i < |t| ==> t[i] == t[1..][i - 1];
      }
    }
  }

  /** Conservation for every interleaving of packets and ticks: the total equals the bytes purged from the window plus
      the bytes on it plus the bytes of the running interval, exactly when no interval ever reached 2^32 bytes. */
  lemma BytesAreConserved(c: Conn, es: seq<Event>)
    requires c.traffic.avgstack == [] && c.traffic.bytes == c.traffic.interval
    ensures Run(c, es).traffic.avgstack <= Pushed(c, es)
    ensures var t := Run(c, es).traffic;
            var purged := Pushed(c, es)[|t.avgstack|..];
            && t.bytes == c.traffic.bytes + SumLengths(Log(c, es))
            && (t.bytes == SumSizes(purged) + SumSizes(t.avgstack) + t.interval <==>
                OpenInterval(c, es) < TWO32 &&
                forall i :: 0 <= i < |ClosedIntervals(c, es)| ==> ClosedIntervals(c, es)[i] < TWO32)
  {
    hide Run, Log, Pushed, ClosedIntervals, OpenInterval;
    var t := Run(c, es).traffic;
    TotalsCountLog(c, es);
    WindowIsPrefixOfHistory(c, es);
    IntervalsWrap(c, es);
    SumSplit(Pushed(c, es), |t.avgstack|);
    assert Pushed(c, es)[..|t.avgstack|] == t.avgstack;
    WrapBelow(OpenInterval(c, es));
    WrappedSum(Pushed(c, es), ClosedIntervals(c, es));
  }

  // ---------------------------------------------------------------- the reported rate

  lemma {:induction false} FirstStampIsNewest(s: seq<AvgStat>)
    requires NewestFirst(s) && s != []
    ensures FirstStamp(s) == s[0].ts
  {
    if s[0].ts == 0 && |s| > 1 {
      FirstStampIsNewest(s[1..]);
    }
  }

  /** The time taken for the newest entry's is the first that is not 0, wherever it stands. */
  lemma {:induction false} FirstStampIsFirstNonZero(s: seq<AvgStat>, i: nat)
    requires i < |s| && s[i].ts != 0 && forall j :: 0 <= j < i ==> s[j].ts == 0
    ensures FirstStamp(s) == s[i].ts
  {
    if i > 0 {
      FirstStampIsFirstNonZero(s[1..], i - 1);
    }
  }

  datatype RefreshKey = Faster | Slower

  /** The + and - keys halve and double the refresh interval; no sequence of them takes it out of its bounds. */
  function RefreshAfter(keys: seq<RefreshKey>): (r: U32)
    ensures 31_250 <= r <= 32_000_000
  {
    if keys == [] then 1_000_000 else
      var r := RefreshAfter(keys[..|keys| - 1]);
      match keys[|keys| - 1]
      case Faster => if r / 2 < 31_250 then 31_250 else r / 2
      case Slower => if r * 2 > 32_000_000 then 32_000_000 else r * 2
  }

  /** Halvings and doublings between the two bounds: 31250 * 2^0 up to 31250 * 2^10, starting from 2^5. */
  function Level(keys: seq<RefreshKey>): (r: nat)
    ensures r <= 10
  {
    if keys == [] then 5 else
      var r := Level(keys[..|keys| - 1]);
      match keys[|keys| - 1]
      case Faster => if r == 0 then 0 else r - 1
      case Slower => if r == 10 then 10 else r + 1
  }

  function Pow2(n: nat): nat {
    if n == 0 then 1 else 2 * Pow2(n - 1)
  }

  /** The keys walk up and down eleven intervals, from 1/32 second to 32 seconds; within the bounds each undoes the other. */
  lemma {:induction false} RefreshIsALevel(keys: seq<RefreshKey>)
    ensures RefreshAfter(keys) == 31_250 * Pow2(Level(keys))
  {
    if keys != [] {
      var before := keys[..|keys| - 1];
      RefreshIsALevel(before);
      PowersGrow(Level(before));
      PowersGrow(Level(keys));
    }
    assert Pow2(5) == 32 && Pow2(10) == 1024 by { SmallPowers(); }
  }

  lemma {:induction false} PowersGrow(n: nat)
    requires n <= 10
    ensures 1 <= Pow2(n) <= 1024
    ensures n >= 1 ==> 2 <= Pow2(n) && Pow2(n) == 2 * Pow2(n - 1)
    ensures n < 10 ==> Pow2(n) <= 512
    ensures n == 10 ==> Pow2(n) == 1024
  {
    SmallPowers();
  }

  lemma SmallPowers()
    ensures Pow2(0) == 1 && Pow2(1) == 2 && Pow2(2) == 4 && Pow2(3) == 8 && Pow2(4) == 16 && Pow2(5) == 32
    ensures Pow2(6) == 64 && Pow2(7) == 128 && Pow2(8) == 256 && Pow2(9) == 512 && Pow2(10) == 1024
  {
  }

  /** Microseconds between the newest and the oldest entry. */
  function Span(s: seq<AvgStat>): int {
    if s == [] then 0 else s[0].ts - s[|s| - 1].ts
  }

  lemma RateOfOrdered(s: seq<AvgStat>, refreshUs: U32)
    requires NewestFirst(s) && 0 < refreshUs && Span(s) + refreshUs < TWO64
    ensures 0 < Span(s) + refreshUs
    ensures Rate(s, refreshUs) == Wrap32(SumSizes(s)) * 1_000_000 / (Span(s) + refreshUs)
  {
    hide SumSizes;
    if s != [] {
      FirstStampIsNewest(s);
    }
    var x := Span(s) + refreshUs;
    assert 0 < x && Wrap64(x) == x;
  }

  /** Sizes that wrapped one by one leave the same wrapped sum as the true counts. */
  lemma {:induction false} WrappedSumWraps(s: seq<AvgStat>, t: seq<nat>)
    requires |s| == |t| && forall i :: 0 <= i < |s| ==> s[i].size == Wrap32(t[i])
    ensures Wrap32(SumSizes(s)) == Wrap32(Sum(t))
  {
    hide Wrap32;
    if s != [] {
      assert forall i :: 0 <= i < |s[1..]| ==> s[1..][i] == s[i + 1] && t[1..][i] == t[i + 1];
      WrappedSumWraps(s[1..], t[1..]);
      WrapAdd(t[0], SumSizes(s[1..]));
      WrapAdd(SumSizes(s[1..]), t[0]);
      WrapAdd(Sum(t[1..]), t[0]);
    }
  }

  /** Over a span that is not absurdly long, a wrapped sum shows in the quotient. */
  lemma WrapShowsInQuotient(total: nat, d: int)
    requires 0 < d <= TWO32 * 1_000_000
    ensures Wrap32(total) * 1_000_000 / d <= total * 1_000_000 / d
    ensures Wrap32(total) * 1_000_000 / d == total * 1_000_000 / d <==> total < TWO32
  {
    WrapBelow(total);
    if total >= TWO32 {
      var x, y := Wrap32(total) * 1_000_000, total * 1_000_000;
      assert total - Wrap32(total) >= TWO32;
      assert y >= x + d;
      QuotientStep(x, y, d);
    }
  }

  lemma QuotientStep(x: nat, y: nat, d: int)
    requires 0 < d && y >= x + d
    ensures y / d > x / d
  {
    QuotientOrder(x / d, x % d, y / d, y % d, d);
  }

  lemma QuotientOrder(q: int, r: nat, q': int, r': nat, d: int)
    requires r' < d && q' * d + r' >= q * d + r + d
    ensures q' > q
  {
    assert (q' - q) * d == q' * d - q * d > 0;
  }

  /** On every reachable window, the empty one included, and for every refresh interval the keys can set: the time span
      does not underflow, the divisor is positive, and the quotient is the true number of bytes received in the windowed
      intervals per second, rounded down, over the span plus one refresh interval, exactly when those bytes number less
      than 2^32. The two clock readings of one tick lie less than 120 years apart. */
  lemma QuotientIsSoundIff(c: Conn, es: seq<Event>, keys: seq<RefreshKey>)
    requires c.traffic.avgstack == [] && c.traffic.bytes == c.traffic.interval && ClockForward(es)
    requires LastReading(es) - LastPurge(es) <= 4_000_000_000_000_000
    ensures |Run(c, es).traffic.avgstack| <= |ClosedIntervals(c, es)|
    ensures var s := Run(c, es).traffic.avgstack;
            var refreshUs := RefreshAfter(keys);
            var total := Sum(ClosedIntervals(c, es)[..|s|]);
            && 0 <= Span(s) < WINDOW + LastReading(es) - LastPurge(es)
            && Rate(s, refreshUs) <= total * 1_000_000 / (Span(s) + refreshUs)
            && (Rate(s, refreshUs) == total * 1_000_000 / (Span(s) + refreshUs) <==> total < TWO32)
  {
    hide Run, Rate, SumSizes, Sum, Pushed, ClosedIntervals, LastReading, LastPurge, ClockForward;
    var s := Run(c, es).traffic.avgstack;
    PushedInOrder(c, es);
    WindowIsRecent(c, es);
    WindowInOrder(c, es);
    WindowIsPrefixOfHistory(c, es);
    IntervalsWrap(c, es);
    if s != [] {
      assert s[|s| - 1] in s;
    }
    RateOfOrdered(s, RefreshAfter(keys));
    WrappedSumWraps(s, ClosedIntervals(c, es)[..|s|]);
    WrapShowsInQuotient(Sum(ClosedIntervals(c, es)[..|s|]), Span(s) + RefreshAfter(keys));
  }

  /** A redraw leaves the true rate exactly when the bytes fit the 32-bit sum and the rate fits the int that stores it,
      whatever a conversion that does not fit leaves there. */
  lemma RateIsSoundIff(c: Conn, es: seq<Event>, keys: seq<RefreshKey>, spill: I32)
    requires c.traffic.avgstack == [] && c.traffic.bytes == c.traffic.interval && ClockForward(es)
    requires LastReading(es) - LastPurge(es) <= 4_000_000_000_000_000
    ensures |Run(c, es).traffic.avgstack| <= |ClosedIntervals(c, es)|
    ensures var s := Run(c, es).traffic.avgstack;
            var refreshUs := RefreshAfter(keys);
            var total := Sum(ClosedIntervals(c, es)[..|s|]);
            && 0 <= Span(s) < WINDOW + LastReading(es) - LastPurge(es)
            && (Run(c, es + [Redraw(refreshUs, spill)]).rate == total * 1_000_000 / (Span(s) + refreshUs) <==>
                total < TWO32 && total * 1_000_000 / (Span(s) + refreshUs) < 0x8000_0000)
  {
    hide *;
    QuotientIsSoundIff(c, es, keys);
    var s, r := Run(c, es).traffic.avgstack, RefreshAfter(keys);
    var total := Sum(ClosedIntervals(c, es)[..|s|]);
    RedrawStores(c, es, r, spill);
    NarrowIff(Rate(s, r), total * 1_000_000 / (Span(s) + r), total < TWO32, spill);
  }

  lemma RedrawStores(c: Conn, es: seq<Event>, refreshUs: U32, spill: I32)
    ensures Run(c, es + [Redraw(refreshUs, spill)]).rate == ToInt(Rate(Run(c, es).traffic.avgstack, refreshUs), spill)
  {
    hide Rate;
    var e := Redraw(refreshUs, spill);
    assert (es + [e])[..|es|] == es;
    assert Run(c, es + [e]) == Step(Run(c, es), e);
  }

  lemma NarrowIff(quotient: nat, truth: int, fits: bool, spill: I32)
    requires quotient <= truth && (quotient == truth <==> fits)
    ensures ToInt(quotient, spill) == truth <==> fits && truth < 0x8000_0000
  {
  }

  // ---------------------------------------------------------------- concrete runs

  /** n more arrivals of one packet. */
  function Arrivals(p: Packet, n: nat): seq<Event> {
    if n == 0 then [] else Arrivals(p, n - 1) + [Arrival(p, 0)]
  }

  lemma PlainArrival(c: Conn, p: Packet)
    requires c.close.state == Up && c.Pair() == p.Pair() && !p.Fin() && !p.Rst()
    ensures Accepts(c, p)
    ensures var r := Accept(c, p, 0);
            r.close == c.close && r.Pair() == c.Pair() && r.traffic.avgstack == c.traffic.avgstack
  {
  }

  lemma {:induction false} ArrivalsAccumulate(p: Packet, n: nat)
    requires !p.Syn() && !p.Fin() && !p.Rst()
    ensures var c, es := Open(p, 0), Arrivals(p, n);
            && Run(c, es).close == c.close && Run(c, es).Pair() == p.Pair() && Run(c, es).traffic.avgstack == []
            && OpenInterval(c, es) == p.totalLen * (n + 1) && ClosedIntervals(c, es) == []
            && ClockForward(es) && LastReading(es) == WINDOW
  {
    hide Accept, Accepts, Refresh, Rate;
    if n > 0 {
      ArrivalsAccumulate(p, n - 1);
      var es := Arrivals(p, n);
      assert es[..|es| - 1] == Arrivals(p, n - 1);
      PlainArrival(Run(Open(p, 0), Arrivals(p, n - 1)), p);
      assert p.totalLen * n + p.totalLen == p.totalLen * (n + 1);
    }
  }

  /** n + 1 arrivals of one packet between the opening of the connection and the first tick. */
  lemma BurstThenTick(p: Packet, n: nat)
    requires !p.Syn() && !p.Fin() && !p.Rst()
    ensures var c, es := Open(p, 0), Arrivals(p, n) + [Tick(WINDOW, WINDOW)];
            && ClockForward(es) && LastReading(es) == LastPurge(es) == WINDOW
            && |Run(c, es).traffic.avgstack| == 1 && Span(Run(c, es).traffic.avgstack) == 0
            && ClosedIntervals(c, es) == [p.totalLen * (n + 1)]
  {
    var c, before, e := Open(p, 0), Arrivals(p, n), Tick(WINDOW, WINDOW);
    ArrivalsAccumulate(p, n);
    assert (before + [e])[..|before|] == before;
    assert Run(c, before + [e]) == Step(Run(c, before), e);
  }

  /** A rate that is wrong because the sum overflows: 65538 full-sized packets between two ticks. */
  lemma OverflowExample(p: Packet, keys: seq<RefreshKey>, spill: I32) returns (c: Conn, es: seq<Event>)
    requires !p.Syn() && !p.Fin() && !p.Rst() && p.totalLen == 65535
    ensures c == Open(p, 0) && ClockForward(es) && |Run(c, es).traffic.avgstack| == 1 == |ClosedIntervals(c, es)|
    ensures Rate(Run(c, es).traffic.avgstack, RefreshAfter(keys)) !=
            Sum(ClosedIntervals(c, es)) * 1_000_000 / RefreshAfter(keys)
    ensures Run(c, es + [Redraw(RefreshAfter(keys), spill)]).rate !=
            Sum(ClosedIntervals(c, es)) * 1_000_000 / RefreshAfter(keys)
  {
    hide Rate, Run, ClosedIntervals, ClockForward, LastReading, LastPurge, Arrivals;
    c, es := Open(p, 0), Arrivals(p, 65537) + [Tick(WINDOW, WINDOW)];
    BurstThenTick(p, 65537);
    assert ClosedIntervals(c, es)[..1] == ClosedIntervals(c, es);
    assert Sum(ClosedIntervals(c, es)) == 65535 * 65538;
    QuotientIsSoundIff(c, es, keys);
    RateIsSoundIff(c, es, keys, spill);
  }

  /** A rate that is wrong because it does not fit its int: 1025 full-sized packets, 67 million bytes, between two ticks,
      shown after the refresh interval was halved five times. The quotient itself is right. */
  lemma NarrowingExample(p: Packet, spill: I32) returns (c: Conn, es: seq<Event>, keys: seq<RefreshKey>)
    requires !p.Syn() && !p.Fin() && !p.Rst() && p.totalLen == 65535
    ensures c == Open(p, 0) && ClockForward(es) && |Run(c, es).traffic.avgstack| == 1 == |ClosedIntervals(c, es)|
    ensures RefreshAfter(keys) == 31_250 && Sum(ClosedIntervals(c, es)) == 65535 * 1025 < TWO32
    ensures Rate(Run(c, es).traffic.avgstack, 31_250) == Sum(ClosedIntervals(c, es)) * 32
    ensures Run(c, es + [Redraw(31_250, spill)]).rate != Sum(ClosedIntervals(c, es)) * 32
  {
    hide Rate, Run, ClosedIntervals, ClockForward, LastReading, LastPurge, Arrivals;
    c, es, keys := Open(p, 0), Arrivals(p, 1024) + [Tick(WINDOW, WINDOW)], [Faster, Faster, Faster, Faster, Faster];
    FiveTimesFaster(keys);
    BurstThenTick(p, 1024);
    assert ClosedIntervals(c, es)[..1] == ClosedIntervals(c, es);
    assert Sum(ClosedIntervals(c, es)) == 65535 * 1025;
    QuotientIsSoundIff(c, es, keys);
    RateIsSoundIff(c, es, keys, spill);
  }

  lemma FiveTimesFaster(keys: seq<RefreshKey>)
    requires keys == [Faster, Faster, Faster, Faster, Faster]
    ensures RefreshAfter(keys) == 31_250
  {
    var k1 := [Faster];
    var k2 := k1 + [Faster];
    var k3 := k2 + [Faster];
    var k4 := k3 + [Faster];
    assert k1[..0] == [] && k2[..1] == k1 && k3[..2] == k2 && k4[..3] == k3 && keys[..4] == k4;
    assert RefreshAfter(k1) == 500_000 && RefreshAfter(k2) == 250_000 && RefreshAfter(k3) == 125_000;
    assert RefreshAfter(k4) == 62_500;
  }

  lemma {:induction false} ArrivalsAreLogged(p: Packet, n: nat)
    requires !p.Syn() && !p.Fin() && !p.Rst()
    ensures |Log(Open(p, 0), Arrivals(p, n))| == n
  {
    hide Accepts, Accept, Run;
    if n > 0 {
      ArrivalsAreLogged(p, n - 1);
      var before, es := Arrivals(p, n - 1), Arrivals(p, n);
      assert es[..|es| - 1] == before;
      assert Accepts(Run(Open(p, 0), before), p) by {
        ArrivalsAccumulate(p, n - 1);
        PlainArrival(Run(Open(p, 0), before), p);
      }
    }
  }

  /** A packet count that does not fit its int: 2^31 packets of one connection. */
  lemma TotalsExample(p: Packet) returns (es: seq<Event>)
    requires !p.Syn() && !p.Fin() && !p.Rst()
    ensures Run(Open(p, 0), es).traffic.packets == 0x8000_0000 && !TotalsFit(Run(Open(p, 0), es).traffic)
  {
    es := Arrivals(p, 0x7fff_ffff);
    hide Run, Log, Arrivals;
    ArrivalsAreLogged(p, 0x7fff_ffff);
    CountsFromTheFirst(p, 0, es);
  }

  /** A clock that steps back: the third tick erases an entry that is not three seconds old. */
  lemma ClockStepExample(c: Conn) returns (es: seq<Event>)
    requires c.traffic.avgstack == []
    ensures exists e :: e in Pushed(c, es) && e.ts > LastPurge(es) - WINDOW && e !in Run(c, es).traffic.avgstack
  {
    var e1, e2, e3 := Tick(10_000_000, 10_000_000), Tick(5_000_000, 5_000_000), Tick(9_000_000, 9_000_000);
    es := [e1, e2, e3];
    assert es[..2] == [e1, e2] && [e1, e2][..1] == [e1] && [e1][..0] == [];
    var lost := AvgStat(10_000_000, c.traffic.interval);
    assert Run(c, [e1]).traffic.avgstack == [lost] && Pushed(c, [e1]) == [lost];
    var s := Run(c, [e1, e2]).traffic.avgstack;
    assert Limit(5_000_000) == 2_000_000 && [lost][1..] == [] && BeforeStale([lost], 2_000_000) == [lost];
    assert s == [AvgStat(5_000_000, 0), lost] && Pushed(c, [e1, e2]) == s;
    assert Pushed(c, es) == [AvgStat(9_000_000, 0)] + s;
    assert lost == Pushed(c, es)[2];
    assert Run(c, es).traffic.avgstack == [AvgStat(9_000_000, 0)];
  }
}
