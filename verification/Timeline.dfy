/**
  The journey timeline: nodes are grouped into day, month or year rows, coarser when there are too
  many rows, and every row gets a recency between a floor and one. Timestamps are 64-bit
  milliseconds; one the calendar cannot represent starts its own row. Recency is modelled over reals.
*/
module Timeline {
  import opened Prelude
  import opened Calendar

  const DAY_MS: int := 86_400_000
  const DAY_LOCK_SPAN_MS: int := 32 * DAY_MS
  const RECENCY_FLOOR: real := 0.06
  const I64_MIN: int := -0x8000_0000_0000_0000
  const I64_MAX: int := 0x7FFF_FFFF_FFFF_FFFF
  /** The years the date library represents. */
  const MIN_YEAR: int := -262_143
  const MAX_YEAR: int := 262_142

  datatype Body = AgentSkill | UserSkill | Memory

  datatype Node = Node(ms: int, body: Body)

  datatype Row = Row(start: int, skills: nat, memories: nat, recency: real)

  datatype Granularity = Day | Month | Year

  function SaturatingSub(a: int, b: int): int {
    Max(I64_MIN, Min(I64_MAX, a - b))
  }

  // ---------------------------------------------------------------- bucket starts

  predicate InRange(ms: int) {
    MIN_YEAR <= YearOf(ms / DAY_MS) <= MAX_YEAR
  }

  function FirstDay(g: Granularity, d: int): int {
    match g
    case Day => d
    case Month => FirstOfMonth(d)
    case Year => FirstOfYear(d)
  }

  function BucketStart(g: Granularity, ms: int): int {
    if InRange(ms) then FirstDay(g, ms / DAY_MS) * DAY_MS else ms
  }

  function DayStart(ms: int): int {
    BucketStart(Day, ms)
  }

  function MonthStart(ms: int): int {
    BucketStart(Month, ms)
  }

  function YearStartMs(ms: int): int {
    BucketStart(Year, ms)
  }

  function StartOf(g: Granularity): int -> int {
    match g
    case Day => DayStart
    case Month => MonthStart
    case Year => YearStartMs
  }

  function Midnight(d: int): int {
    d * DAY_MS
  }

  lemma FirstDayFacts(g: Granularity, d: int)
    ensures FirstDay(g, d) <= d && YearOf(FirstDay(g, d)) == YearOf(d)
    ensures FirstDay(Month, FirstDay(Day, d)) == FirstDay(Month, d)
    ensures FirstDay(Year, FirstDay(Month, d)) == FirstDay(Year, d)
  {
    FirstDays(d);
  }

  lemma StartFacts(g: Granularity, ms: int)
    ensures BucketStart(g, ms) <= ms
    ensures InRange(BucketStart(g, ms)) <==> InRange(ms)
    ensures InRange(ms) ==> BucketStart(g, ms) / DAY_MS == FirstDay(g, ms / DAY_MS)
  {
    var d := ms / DAY_MS;
    FirstDayFacts(g, d);
    assert ms >= d * DAY_MS;
    assert (FirstDay(g, d) * DAY_MS) / DAY_MS == FirstDay(g, d);
  }

  /** A month's start is that of its days' starts, and a year's that of its months' starts. */
  lemma StartsFactor(ms: int)
    ensures BucketStart(Month, BucketStart(Day, ms)) == BucketStart(Month, ms)
    ensures BucketStart(Year, BucketStart(Month, ms)) == BucketStart(Year, ms)
  {
    StartFacts(Day, ms);
    StartFacts(Month, ms);
    FirstDayFacts(Day, ms / DAY_MS);
  }

  /** The timestamp is in the same day, month or year as the other. */
  ghost predicate SamePeriod(g: Granularity, a: int, b: int) {
    match g
    case Day => a / DAY_MS == b / DAY_MS
    case Month => YearOf(a / DAY_MS) == YearOf(b / DAY_MS) && MonthOf(a / DAY_MS) == MonthOf(b / DAY_MS)
    case Year => YearOf(a / DAY_MS) == YearOf(b / DAY_MS)
  }

  lemma FirstDayTells(g: Granularity, d: int, e: int)
    ensures FirstDay(g, d) == FirstDay(g, e) <==> SamePeriod(g, Midnight(d), Midnight(e))
  {
    FirstOfYearTells(d, e);
    FirstOfMonthTells(d, e);
    assert Midnight(d) / DAY_MS == d && Midnight(e) / DAY_MS == e;
  }

  /** Two timestamps share a row exactly when they are in the same period of the calendar, or are equal;
      the row starts at the first of them. */
  lemma SameRowIff(g: Granularity, a: int, b: int)
    ensures BucketStart(g, a) == BucketStart(g, b) <==> a == b || (InRange(a) && InRange(b) && SamePeriod(g, a, b))
    ensures BucketStart(g, BucketStart(g, a)) == BucketStart(g, a) <= a
  {
    StartFacts(g, a);
    StartFacts(g, b);
    FirstDayTells(g, a / DAY_MS, b / DAY_MS);
    FirstDays(a / DAY_MS);
  }

  lemma FirstDayAscends(g: Granularity, d: int, e: int)
    requires d <= e
    ensures FirstDay(g, d) <= FirstDay(g, e)
  {
    FirstOfMonthAscends(d, e);
    FirstOfYearAscends(d, e);
  }

  /** Rows are intervals of time: a later timestamp never starts an earlier row. */
  lemma StartsAscend(g: Granularity, a: int, b: int)
    requires a <= b
    ensures BucketStart(g, a) <= BucketStart(g, b)
  {
    var d, e := a / DAY_MS, b / DAY_MS;
    StartFacts(g, a);
    StartFacts(g, b);
    YearOfAscends(d, e);
    FirstDayAscends(g, d, e);
    if !InRange(a) && InRange(b) {
      FirstDayFacts(g, e);
      if FirstDay(g, e) <= d {
        YearOfAscends(FirstDay(g, e), d);
      }
    }
  }

  // ---------------------------------------------------------------- rows

  predicate IsSkill(n: Node) {
    n.body.AgentSkill? || n.body.UserSkill?
  }

  function Starts(nodes: seq<Node>, start: int -> int): set<int> {
    set i | 0 <= i < |nodes| :: start(nodes[i].ms)
  }

  function Skills(nodes: seq<Node>, start: int -> int, s: int): nat {
    if nodes == [] then 0
    else
      var last := nodes[|nodes| - 1];
      Skills(nodes[..|nodes| - 1], start, s) + (if start(last.ms) == s && IsSkill(last) then 1 else 0)
  }

  function Memories(nodes: seq<Node>, start: int -> int, s: int): nat {
    if nodes == [] then 0
    else
      var last := nodes[|nodes| - 1];
      Memories(nodes[..|nodes| - 1], start, s) + (if start(last.ms) == s && !IsSkill(last) then 1 else 0)
  }

  /** The places of a row's skills, and of its memories. */
  ghost function SkillsAt(nodes: seq<Node>, start: int -> int, s: int): set<int> {
    set i | 0 <= i < |nodes| && start(nodes[i].ms) == s && nodes[i].body in {AgentSkill, UserSkill}
  }

  ghost function MemoriesAt(nodes: seq<Node>, start: int -> int, s: int): set<int> {
    set i | 0 <= i < |nodes| && start(nodes[i].ms) == s && nodes[i].body == Memory
  }

  lemma SkillsAtNext(nodes: seq<Node>, start: int -> int, s: int)
    requires nodes != []
    ensures var n := |nodes| - 1;
            SkillsAt(nodes, start, s) == SkillsAt(nodes[..n], start, s)
              + (if start(nodes[n].ms) == s && nodes[n].body != Memory then {n} else {})
  {
    var n := |nodes| - 1;
    assert forall i :: 0 <= i < n ==> nodes[..n][i] == nodes[i];
  }

  lemma MemoriesAtNext(nodes: seq<Node>, start: int -> int, s: int)
    requires nodes != []
    ensures var n := |nodes| - 1;
            MemoriesAt(nodes, start, s) == MemoriesAt(nodes[..n], start, s)
              + (if start(nodes[n].ms) == s && nodes[n].body == Memory then {n} else {})
  {
    var n := |nodes| - 1;
    assert forall i :: 0 <= i < n ==> nodes[..n][i] == nodes[i];
  }

  lemma {:induction false} CountsAreExact(nodes: seq<Node>, start: int -> int, s: int)
    ensures Skills(nodes, start, s) == |SkillsAt(nodes, start, s)|
    ensures Memories(nodes, start, s) == |MemoriesAt(nodes, start, s)|
  {
    if nodes != [] {
      CountsAreExact(nodes[..|nodes| - 1], start, s);
      SkillsAtNext(nodes, start, s);
      MemoriesAtNext(nodes, start, s);
    }
  }

  function Newest(nodes: seq<Node>, start: int -> int, s: int): int {
    if nodes == [] then I64_MIN
    else
      var last := nodes[|nodes| - 1];
      var earlier := Newest(nodes[..|nodes| - 1], start, s);
      if start(last.ms) == s then Max(earlier, last.ms) else earlier
  }

  function Clamp(x: real): real {
    if x < RECENCY_FLOOR then RECENCY_FLOOR else if x > 1.0 then 1.0 else x
  }

  function OrdinalRecency(i: nat, n: nat): real {
    if n <= 1 then 1.0
    else Clamp(RECENCY_FLOOR + ((i + 1) as real / n as real) * (1.0 - RECENCY_FLOOR))
  }

  function Recency(i: nat, n: nat, newest: int, lo: int, hi: int): real {
    var span := SaturatingSub(hi, lo);
    if span <= 0 then OrdinalRecency(i, n)
    else Clamp(RECENCY_FLOOR + (SaturatingSub(newest, lo) as real / span as real) * (1.0 - RECENCY_FLOOR))
  }

  function RowsAt(nodes: seq<Node>, start: int -> int, keys: seq<int>, lo: int, hi: int): seq<Row> {
    seq(|keys|, i requires 0 <= i < |keys| =>
      Row(keys[i], Skills(nodes, start, keys[i]), Memories(nodes, start, keys[i]),
          Recency(i, |keys|, Newest(nodes, start, keys[i]), lo, hi)))
  }

  /** The rows of a timeline, one per start, in order of time. */
  function Rows(nodes: seq<Node>, start: int -> int, lo: int, hi: int): seq<Row> {
    RowsAt(nodes, start, Ascending(Starts(nodes, start)), lo, hi)
  }

  // ---------------------------------------------------------------- partition

  function Tally(nodes: seq<Node>, start: int -> int, s: int): nat {
    Skills(nodes, start, s) + Memories(nodes, start, s)
  }

  function Nodes(rows: seq<Row>): nat {
    if rows == [] then 0 else Nodes(rows[..|rows| - 1]) + rows[|rows| - 1].skills + rows[|rows| - 1].memories
  }

  ghost function TallyAll(nodes: seq<Node>, start: int -> int, keys: seq<int>): nat {
    if keys == [] then 0
    else TallyAll(nodes, start, keys[..|keys| - 1]) + Tally(nodes, start, keys[|keys| - 1])
  }

  lemma {:induction false} TallyNothing(start: int -> int, keys: seq<int>)
    ensures TallyAll([], start, keys) == 0
  {
    if keys != [] {
      TallyNothing(start, keys[..|keys| - 1]);
    }
  }

  /** One more node is counted under its own start, once. */
  lemma {:induction false} TallyOneMore(nodes: seq<Node>, start: int -> int, keys: seq<int>)
    requires nodes != [] && Distinct(keys)
    ensures TallyAll(nodes, start, keys) ==
            TallyAll(nodes[..|nodes| - 1], start, keys) + (if start(nodes[|nodes| - 1].ms) in keys then 1 else 0)
  {
    if keys != [] {
      var k := |keys| - 1;
      TallyOneMore(nodes, start, keys[..k]);
      assert keys == keys[..k] + [keys[k]];
    }
  }

  lemma {:induction false} TallyAllIsTotal(nodes: seq<Node>, start: int -> int, keys: seq<int>)
    requires Distinct(keys) && forall i :: 0 <= i < |nodes| ==> start(nodes[i].ms) in keys
    ensures TallyAll(nodes, start, keys) == |nodes|
  {
    if nodes == [] {
      TallyNothing(start, keys);
    } else {
      TallyAllIsTotal(nodes[..|nodes| - 1], start, keys);
      TallyOneMore(nodes, start, keys);
    }
  }

  lemma {:induction false} NodesAreTallied(nodes: seq<Node>, start: int -> int, keys: seq<int>, k: nat, lo: int, hi: int)
    requires k <= |keys|
    ensures Nodes(RowsAt(nodes, start, keys, lo, hi)[..k]) == TallyAll(nodes, start, keys[..k])
  {
    if k > 0 {
      NodesAreTallied(nodes, start, keys, k - 1, lo, hi);
      assert RowsAt(nodes, start, keys, lo, hi)[..k][..k - 1] == RowsAt(nodes, start, keys, lo, hi)[..k - 1];
      assert keys[..k][..k - 1] == keys[..k - 1];
    }
  }

  lemma {:induction false} StartsAreTallied(nodes: seq<Node>, start: int -> int, s: int)
    ensures Tally(nodes, start, s) > 0 <==> s in Starts(nodes, start)
  {
    if nodes != [] {
      StartsAreTallied(nodes[..|nodes| - 1], start, s);
    }
  }

  lemma RowsAddUp(nodes: seq<Node>, start: int -> int, lo: int, hi: int)
    ensures Nodes(Rows(nodes, start, lo, hi)) == |nodes|
  {
    var keys := Ascending(Starts(nodes, start));
    forall i | 0 <= i < |nodes|
      ensures start(nodes[i].ms) in keys
    {
      assert start(nodes[i].ms) in Starts(nodes, start);
    }
    TallyAllIsTotal(nodes, start, keys);
    NodesAreTallied(nodes, start, keys, |keys|, lo, hi);
    assert Rows(nodes, start, lo, hi)[..|keys|] == Rows(nodes, start, lo, hi) && keys[..|keys|] == keys;
  }

  lemma NoRowIsEmpty(nodes: seq<Node>, start: int -> int, lo: int, hi: int, i: nat)
    requires i < |Starts(nodes, start)|
    ensures Rows(nodes, start, lo, hi)[i].skills + Rows(nodes, start, lo, hi)[i].memories > 0
  {
    var keys := Ascending(Starts(nodes, start));
    assert keys[i] in keys;
    StartsAreTallied(nodes, start, keys[i]);
  }

  /** Starts strictly ascend, no row is empty, and the counts add up to the nodes. */
  ghost predicate Partitions(rows: seq<Row>, nodes: seq<Node>) {
    && (forall i, j :: 0 <= i < j < |rows| ==> rows[i].start < rows[j].start)
    && (forall i :: 0 <= i < |rows| ==> rows[i].skills + rows[i].memories > 0)
    && Nodes(rows) == |nodes|
  }

  /** Every row counts the skills of either kind and the memories that start it. */
  ghost predicate CountsRight(rows: seq<Row>, nodes: seq<Node>, start: int -> int) {
    forall i :: 0 <= i < |rows| ==>
      && rows[i].skills == |SkillsAt(nodes, start, rows[i].start)|
      && rows[i].memories == |MemoriesAt(nodes, start, rows[i].start)|
  }

  lemma RowsCountRight(nodes: seq<Node>, start: int -> int, lo: int, hi: int)
    ensures CountsRight(Rows(nodes, start, lo, hi), nodes, start)
  {
    forall s
      ensures Skills(nodes, start, s) == |SkillsAt(nodes, start, s)|
      ensures Memories(nodes, start, s) == |MemoriesAt(nodes, start, s)|
    {
      CountsAreExact(nodes, start, s);
    }
  }

  /** The rows partition the nodes, whatever decides their starts. */
  lemma RowsPartition(nodes: seq<Node>, start: int -> int, lo: int, hi: int)
    ensures Partitions(Rows(nodes, start, lo, hi), nodes)
  {
    RowsAddUp(nodes, start, lo, hi);
    forall i | 0 <= i < |Starts(nodes, start)|
      ensures Rows(nodes, start, lo, hi)[i].skills + Rows(nodes, start, lo, hi)[i].memories > 0
    {
      NoRowIsEmpty(nodes, start, lo, hi, i);
    }
  }

  // ---------------------------------------------------------------- coarser is never longer

  lemma {:induction false} ImageFits(xs: set<int>, f: int -> int, ys: set<int>)
    requires forall y :: y in ys ==> exists x :: x in xs && f(x) == y
    ensures |ys| <= |xs|
    decreases |xs|
  {
    if ys != {} {
      var y := Member(ys);
      var x :| x in xs && f(x) == y;
      forall z | z in ys - {y}
        ensures exists x' :: x' in xs - {x} && f(x') == z
      {
        var x' :| x' in xs && f(x') == z;
        assert x' in xs - {x};
      }
      ImageFits(xs - {x}, f, ys - {y});
    }
  }

  /** The coarse start of a timestamp can be read off its fine start. */
  ghost predicate Factors(fine: int -> int, coarse: int -> int) {
    forall ms {:trigger fine(ms)} :: coarse(fine(ms)) == coarse(ms)
  }

  lemma StartsShrink(nodes: seq<Node>, fine: int -> int, coarse: int -> int)
    requires Factors(fine, coarse)
    ensures |Starts(nodes, coarse)| <= |Starts(nodes, fine)|
  {
    forall y | y in Starts(nodes, coarse)
      ensures exists x :: x in Starts(nodes, fine) && coarse(x) == y
    {
      var i :| 0 <= i < |nodes| && y == coarse(nodes[i].ms);
      var x := fine(nodes[i].ms);
      assert x in Starts(nodes, fine) && coarse(x) == y;
    }
    ImageFits(Starts(nodes, fine), coarse, Starts(nodes, coarse));
  }

  function RowCount(nodes: seq<Node>, g: Granularity): nat {
    |Starts(nodes, StartOf(g))|
  }

  lemma CalendarFactors()
    ensures Factors(DayStart, MonthStart) && Factors(MonthStart, YearStartMs)
  {
    forall ms
      ensures MonthStart(DayStart(ms)) == MonthStart(ms)
      ensures YearStartMs(MonthStart(ms)) == YearStartMs(ms)
    {
      StartsFactor(ms);
    }
  }

  /** Months are no more than days, and years no more than months. */
  lemma CoarserIsShorter(nodes: seq<Node>)
    ensures RowCount(nodes, Year) <= RowCount(nodes, Month) <= RowCount(nodes, Day)
  {
    CalendarFactors();
    StartsShrink(nodes, DayStart, MonthStart);
    StartsShrink(nodes, MonthStart, YearStartMs);
  }

  // ---------------------------------------------------------------- the choice of granularity

  ghost predicate Spans(nodes: seq<Node>, lo: int, hi: int) {
    forall i :: 0 <= i < |nodes| ==> lo <= nodes[i].ms <= hi
  }

  predicate DayLocked(lo: int, hi: int) {
    SaturatingSub(hi, lo) <= DAY_LOCK_SPAN_MS
  }

  function Choose(nodes: seq<Node>, maxRows: nat, lo: int, hi: int): Granularity {
    if DayLocked(lo, hi) || RowCount(nodes, Day) <= maxRows then Day
    else if RowCount(nodes, Month) <= maxRows then Month
    else Year
  }

  predicate Finer(g: Granularity, h: Granularity) {
    (g.Day? && !h.Day?) || (g.Month? && h.Year?)
  }

  /** Up to 32 days the choice is days; beyond that it is the finest granularity that fits, or years
      when none does. */
  lemma ChoiceFits(nodes: seq<Node>, maxRows: nat, lo: int, hi: int)
    ensures var g := Choose(nodes, maxRows, lo, hi);
            if hi - lo <= 32 * 24 * 60 * 60 * 1000 then g == Day
            else
              && (RowCount(nodes, g) <= maxRows || (g == Year && forall f :: RowCount(nodes, f) > maxRows))
              && (forall f :: Finer(f, g) ==> RowCount(nodes, f) > maxRows)
  {
    CoarserIsShorter(nodes);
  }

  /** The distinct timestamps the calendar cannot represent. */
  ghost function Outside(nodes: seq<Node>): set<int> {
    set i | 0 <= i < |nodes| && !InRange(nodes[i].ms) :: nodes[i].ms
  }

  lemma {:induction false} MidnightsFit(xs: set<int>, d: int, n: nat)
    requires forall x :: x in xs ==> exists e :: d <= e < d + n && x == Midnight(e)
    ensures |xs| <= n
    decreases n
  {
    if n == 0 {
      if xs != {} {
        var x := Member(xs);
      }
    } else {
      MidnightsFit(xs - {Midnight(d + n - 1)}, d, n - 1);
    }
  }

  /** The days the calendar does represent, each by its midnight. */
  ghost function Midnights(nodes: seq<Node>): set<int> {
    set i | 0 <= i < |nodes| && InRange(nodes[i].ms) :: Midnight(nodes[i].ms / DAY_MS)
  }

  lemma MidnightInRange(ms: int)
    requires InRange(ms)
    ensures InRange(Midnight(ms / DAY_MS))
  {
  }

  /** The rows of a daily timeline are its days, plus one for every timestamp outside the calendar. */
  lemma DayRowsExactly(nodes: seq<Node>)
    ensures RowCount(nodes, Day) == |Midnights(nodes)| + |Outside(nodes)|
  {
    forall s | s in Midnights(nodes)
      ensures s in Starts(nodes, DayStart) && s !in Outside(nodes)
    {
      var i :| 0 <= i < |nodes| && InRange(nodes[i].ms) && s == Midnight(nodes[i].ms / DAY_MS);
      MidnightInRange(nodes[i].ms);
      assert s == DayStart(nodes[i].ms);
    }
    forall s | s in Outside(nodes)
      ensures s in Starts(nodes, DayStart)
    {
      var i :| 0 <= i < |nodes| && !InRange(nodes[i].ms) && s == nodes[i].ms;
      assert s == DayStart(nodes[i].ms);
    }
    assert Starts(nodes, DayStart) == Midnights(nodes) + Outside(nodes);
    assert |Midnights(nodes) + Outside(nodes)| == |Midnights(nodes)| + |Outside(nodes)|;
  }

  /** A locked timeline has at most 33 days, plus one row per timestamp outside the calendar. */
  lemma LockedRowsAreFew(nodes: seq<Node>, lo: int, hi: int)
    requires DayLocked(lo, hi) && Spans(nodes, lo, hi)
    ensures |Midnights(nodes)| <= 33 && RowCount(nodes, Day) == |Midnights(nodes)| + |Outside(nodes)|
  {
    forall s | s in Midnights(nodes)
      ensures exists e :: lo / DAY_MS <= e < lo / DAY_MS + 33 && s == Midnight(e)
    {
      var i :| 0 <= i < |nodes| && InRange(nodes[i].ms) && s == Midnight(nodes[i].ms / DAY_MS);
    }
    MidnightsFit(Midnights(nodes), lo / DAY_MS, 33);
    DayRowsExactly(nodes);
  }

  /** Without timestamps outside the calendar the bound is the calendar's own 33 days. */
  lemma LockedWithinCalendar(nodes: seq<Node>, lo: int, hi: int)
    requires DayLocked(lo, hi) && Spans(nodes, lo, hi)
    requires forall i :: 0 <= i < |nodes| ==> InRange(nodes[i].ms)
    ensures RowCount(nodes, Day) <= 33
  {
    LockedRowsAreFew(nodes, lo, hi);
    assert Outside(nodes) == {};
  }

  /** A timestamp far in the past, beyond the years the calendar represents. */
  const ANCIENT: int := -4_000_000_000_000_000_000

  lemma AncientIsOutside(ms: int)
    requires ms <= ANCIENT + 1000
    ensures !InRange(ms)
  {
    var d := ms / DAY_MS;
    YearsAscend(MIN_YEAR, EPOCH_YEAR);
    if MIN_YEAR <= YearOf(d) {
      YearsAscend(MIN_YEAR, YearOf(d));
    }
  }

  /** The 33-row bound needs the calendar: 34 milliseconds of ancient history give 34 rows. */
  lemma LockedOutsideCalendar() returns (nodes: seq<Node>, lo: int, hi: int)
    ensures DayLocked(lo, hi) && Spans(nodes, lo, hi) && RowCount(nodes, Day) > 33
    ensures I64_MIN <= lo && hi <= I64_MAX
  {
    var stamps := seq(34, k requires 0 <= k < 34 => ANCIENT + k);
    nodes := seq(34, k requires 0 <= k < 34 => Node(ANCIENT + k, Memory));
    lo, hi := ANCIENT, ANCIENT + 33;
    forall x | x in stamps
      ensures x in Starts(nodes, DayStart)
    {
      var k :| 0 <= k < 34 && stamps[k] == x;
      AncientIsOutside(x);
      assert DayStart(nodes[k].ms) == x;
    }
    DistinctFits(stamps, Starts(nodes, DayStart));
  }

  // ---------------------------------------------------------------- recency

  lemma {:induction false} NoNewestYet(nodes: seq<Node>, start: int -> int, s: int)
    requires s !in Starts(nodes, start)
    ensures Newest(nodes, start, s) == I64_MIN
  {
    if nodes != [] {
      NoNewestYet(nodes[..|nodes| - 1], start, s);
    }
  }

  lemma {:induction false} NewestIsMax(nodes: seq<Node>, start: int -> int, s: int)
    requires forall i :: 0 <= i < |nodes| ==> I64_MIN <= nodes[i].ms
    ensures forall i :: 0 <= i < |nodes| && start(nodes[i].ms) == s ==> nodes[i].ms <= Newest(nodes, start, s)
    ensures s in Starts(nodes, start) ==>
              exists i :: 0 <= i < |nodes| && start(nodes[i].ms) == s && nodes[i].ms == Newest(nodes, start, s)
  {
    if nodes != [] {
      var n := |nodes| - 1;
      NewestIsMax(nodes[..n], start, s);
      assert forall i :: 0 <= i < n ==> nodes[..n][i] == nodes[i];
      if s in Starts(nodes[..n], start) {
        var i :| 0 <= i < n && start(nodes[..n][i].ms) == s && nodes[..n][i].ms == Newest(nodes[..n], start, s);
        assert nodes[i].ms == Newest(nodes[..n], start, s);
      } else {
        NoNewestYet(nodes[..n], start, s);
      }
    }
  }

  ghost predicate Ascends(start: int -> int) {
    forall a, b :: a <= b ==> start(a) <= start(b)
  }

  /** Rows are intervals, so a later row's newest node is newer. */
  lemma NewestAscends(nodes: seq<Node>, start: int -> int, s: int, t: int)
    requires forall i :: 0 <= i < |nodes| ==> I64_MIN <= nodes[i].ms
    requires Ascends(start) && s < t && s in Starts(nodes, start) && t in Starts(nodes, start)
    ensures Newest(nodes, start, s) < Newest(nodes, start, t)
  {
    NewestIsMax(nodes, start, s);
    NewestIsMax(nodes, start, t);
    var i :| 0 <= i < |nodes| && start(nodes[i].ms) == s && nodes[i].ms == Newest(nodes, start, s);
    var j :| 0 <= j < |nodes| && start(nodes[j].ms) == t && nodes[j].ms == Newest(nodes, start, t);
  }

  lemma Cancel(x: real, y: real, s: real)
    requires s > 0.0
    ensures x * s < y * s <==> x < y
  {
    if x < y {
      assert (y - x) * s > 0.0;
    } else {
      assert (x - y) * s >= 0.0;
    }
  }

  lemma FractionAscends(a: int, b: int, span: int)
    requires 0 <= a <= b <= span && span > 0
    ensures 0.0 <= a as real / span as real <= b as real / span as real <= 1.0
    ensures a < b ==> a as real / span as real < b as real / span as real
  {
    var s := span as real;
    Cancel(0.0, a as real / s, s);
    Cancel(a as real / s, b as real / s, s);
    Cancel(b as real / s, 1.0, s);
  }

  lemma RecencyAscends(i: nat, j: nat, n: nat, a: int, b: int, lo: int, hi: int)
    requires lo <= a < b <= hi
    ensures RECENCY_FLOOR <= Recency(i, n, a, lo, hi) <= Recency(j, n, b, lo, hi) <= 1.0
    ensures Recency(i, n, a, lo, hi) < Recency(j, n, b, lo, hi) <==> a - lo < I64_MAX
  {
    FractionAscends(SaturatingSub(a, lo), SaturatingSub(b, lo), SaturatingSub(hi, lo));
  }

  /** No row is dimmer than the floor or brighter than one. */
  ghost predicate Legible(rows: seq<Row>) {
    forall i :: 0 <= i < |rows| ==> RECENCY_FLOOR <= rows[i].recency <= 1.0
  }

  lemma RowsLegible(nodes: seq<Node>, start: int -> int, lo: int, hi: int)
    ensures Legible(Rows(nodes, start, lo, hi))
  {
  }

  ghost predicate Wellformed(nodes: seq<Node>, lo: int, hi: int) {
    I64_MIN <= lo && hi <= I64_MAX && Spans(nodes, lo, hi)
  }

  lemma StartsWithin(nodes: seq<Node>, start: int -> int, s: int, lo: int, hi: int)
    requires Wellformed(nodes, lo, hi) && s in Starts(nodes, start)
    ensures lo <= Newest(nodes, start, s) <= hi
  {
    NewestIsMax(nodes, start, s);
  }

  lemma CalendarAscends(g: Granularity)
    ensures Ascends(StartOf(g))
  {
    forall a, b | a <= b
      ensures StartOf(g)(a) <= StartOf(g)(b)
    {
      StartsAscend(g, a, b);
    }
  }

  /** Recency lies between the floor and one and never falls along the rows; it rises from one row to a
      later one exactly when the earlier row's newest node is less than 2^63 - 1 ms after the left edge. */
  lemma RowsBrighten(nodes: seq<Node>, g: Granularity, lo: int, hi: int, i: nat, j: nat)
    requires Wellformed(nodes, lo, hi) && i < j < |Rows(nodes, StartOf(g), lo, hi)|
    ensures var rows := Rows(nodes, StartOf(g), lo, hi);
            && RECENCY_FLOOR <= rows[i].recency <= rows[j].recency <= 1.0
            && (rows[i].recency < rows[j].recency <==> Newest(nodes, StartOf(g), rows[i].start) - lo < I64_MAX)
  {
    CalendarAscends(g);
    RowsBrightenBy(nodes, StartOf(g), lo, hi, i, j);
  }

  lemma RowsBrightenBy(nodes: seq<Node>, start: int -> int, lo: int, hi: int, i: nat, j: nat)
    requires Wellformed(nodes, lo, hi) && Ascends(start)
    requires i < j < |Rows(nodes, start, lo, hi)|
    ensures var rows := Rows(nodes, start, lo, hi);
            && RECENCY_FLOOR <= rows[i].recency <= rows[j].recency <= 1.0
            && (rows[i].recency < rows[j].recency <==> Newest(nodes, start, rows[i].start) - lo < I64_MAX)
  {
    var keys := Ascending(Starts(nodes, start));
    assert keys[i] in keys && keys[j] in keys;
    NewestAscends(nodes, start, keys[i], keys[j]);
    StartsWithin(nodes, start, keys[i], lo, hi);
    StartsWithin(nodes, start, keys[j], lo, hi);
    RecencyAscends(i, j, |keys|, Newest(nodes, start, keys[i]), Newest(nodes, start, keys[j]), lo, hi);
  }

  lemma FractionTimes(part: int, span: int)
    requires span > 0
    ensures ((part as real / span as real) * 0.94) * span as real == 0.94 * part as real
  {
    var f := part as real / span as real;
    assert f * span as real == part as real;
    assert (f * 0.94) * span as real == 0.94 * (f * span as real);
  }

  /** On the straight line from the floor at the left edge to one at the right edge. */
  ghost predicate OnLine(recency: real, newest: int, lo: int, hi: int) {
    (recency - 0.06) * (hi - lo) as real == 0.94 * (newest - lo) as real
  }

  lemma RecencyAt(i: nat, n: nat, newest: int, lo: int, hi: int)
    requires lo <= newest <= hi && 0 < hi - lo <= I64_MAX
    ensures OnLine(Recency(i, n, newest, lo, hi), newest, lo, hi)
  {
    FractionAscends(newest - lo, newest - lo, hi - lo);
    FractionTimes(newest - lo, hi - lo);
  }

  ghost predicate IsNewestOf(nodes: seq<Node>, start: int -> int, s: int, k: nat) {
    && k < |nodes| && start(nodes[k].ms) == s
    && forall j :: 0 <= j < |nodes| && start(nodes[j].ms) == s ==> nodes[j].ms <= nodes[k].ms
  }

  lemma NewestOfRow(nodes: seq<Node>, start: int -> int, s: int, k: nat)
    requires forall i :: 0 <= i < |nodes| ==> I64_MIN <= nodes[i].ms
    requires IsNewestOf(nodes, start, s, k)
    ensures Newest(nodes, start, s) == nodes[k].ms
  {
    NewestIsMax(nodes, start, s);
    assert s in Starts(nodes, start);
  }

  /** Between the edges recency is the newest node's place on a straight line from the floor to one. */
  lemma RecencyIsLinear(nodes: seq<Node>, start: int -> int, lo: int, hi: int, i: nat, k: nat)
    requires Wellformed(nodes, lo, hi) && 0 < hi - lo <= I64_MAX && i < |Rows(nodes, start, lo, hi)|
    requires IsNewestOf(nodes, start, Rows(nodes, start, lo, hi)[i].start, k)
    ensures OnLine(Rows(nodes, start, lo, hi)[i].recency, nodes[k].ms, lo, hi)
  {
    NewestOfRow(nodes, start, Rows(nodes, start, lo, hi)[i].start, k);
    RecencyAt(i, |Starts(nodes, start)|, nodes[k].ms, lo, hi);
  }

  /** When the edges coincide there is one row, fully bright: the ordinal ramp is never used. */
  lemma ZeroSpanIsOneRow(nodes: seq<Node>, start: int -> int, lo: int, hi: int)
    requires nodes != [] && Spans(nodes, lo, hi) && SaturatingSub(hi, lo) <= 0
    ensures |Rows(nodes, start, lo, hi)| == 1 && Rows(nodes, start, lo, hi)[0].recency == 1.0
  {
    assert lo <= nodes[0].ms <= hi;
    forall i | 0 <= i < |nodes|
      ensures nodes[i].ms == lo
    {
      assert lo <= nodes[i].ms <= hi;
    }
    assert start(nodes[0].ms) in Starts(nodes, start);
    assert Starts(nodes, start) == {start(lo)};
  }

  // ---------------------------------------------------------------- the program

  /** Skills, memories and newest timestamp per start. */
  type Groups = map<int, (nat, nat, int)>

  ghost predicate GroupsOf(groups: Groups, nodes: seq<Node>, start: int -> int) {
    && groups.Keys == Starts(nodes, start)
    && forall s :: s in groups ==>
         groups[s] == (Skills(nodes, start, s), Memories(nodes, start, s), Newest(nodes, start, s))
  }

  lemma AbsentGroup(nodes: seq<Node>, start: int -> int, s: int)
    requires s !in Starts(nodes, start)
    ensures Skills(nodes, start, s) == 0 && Memories(nodes, start, s) == 0 && Newest(nodes, start, s) == I64_MIN
  {
    StartsAreTallied(nodes, start, s);
    NoNewestYet(nodes, start, s);
  }

  method Group(nodes: seq<Node>, start: int -> int) returns (groups: Groups)
    ensures GroupsOf(groups, nodes, start)
  {
    groups := map[];
    for i := 0 to |nodes|
      invariant GroupsOf(groups, nodes[..i], start)
    {
      var node := nodes[i];
      var s := start(node.ms);
      ghost var sofar := nodes[..i + 1];
      assert sofar[..|sofar| - 1] == nodes[..i] && sofar[|sofar| - 1] == node;
      if s !in groups {
        AbsentGroup(nodes[..i], start, s);
      }
      var entry := if s in groups then groups[s] else (0, 0, I64_MIN);
      var counted := if IsSkill(node) then (entry.0 + 1, entry.1) else (entry.0, entry.1 + 1);
      groups := groups[s := (counted.0, counted.1, Max(entry.2, node.ms))];
    }
    assert nodes[..|nodes|] == nodes;
  }

  method EmitRows(groups: Groups, keys: seq<int>, lo: int, hi: int, ghost nodes: seq<Node>, ghost start: int -> int)
    returns (rows: seq<Row>)
    requires GroupsOf(groups, nodes, start) && forall i :: 0 <= i < |keys| ==> keys[i] in groups
    ensures rows == RowsAt(nodes, start, keys, lo, hi)
  {
    ghost var spec := RowsAt(nodes, start, keys, lo, hi);
    rows := [];
    for i := 0 to |keys|
      invariant |rows| == i && forall k :: 0 <= k < i ==> rows[k] == spec[k]
    {
      var (skills, memories, newest) := groups[keys[i]];
      rows := rows + [Row(keys[i], skills, memories, Recency(i, |keys|, newest, lo, hi))];
    }
    assert rows == spec;
  }

  method BuildBuckets(nodes: seq<Node>, g: Granularity, lo: int, hi: int) returns (rows: seq<Row>)
    ensures rows == Rows(nodes, StartOf(g), lo, hi)
  {
    var groups := Group(nodes, StartOf(g));
    var keys := Ascending(groups.Keys);
    forall i | 0 <= i < |keys|
      ensures keys[i] in groups
    {
      assert keys[i] in keys;
    }
    rows := EmitRows(groups, keys, lo, hi, nodes, StartOf(g));
  }

  /** Oldest and newest timestamps. */
  method Edges(nodes: seq<Node>) returns (oldest: int, newest: int)
    requires nodes != []
    ensures Spans(nodes, oldest, newest)
    ensures exists i :: 0 <= i < |nodes| && nodes[i].ms == oldest
    ensures exists i :: 0 <= i < |nodes| && nodes[i].ms == newest
  {
    oldest, newest := nodes[0].ms, nodes[0].ms;
    for i := 1 to |nodes|
      invariant Spans(nodes[..i], oldest, newest)
      invariant exists k :: 0 <= k < i && nodes[k].ms == oldest
      invariant exists k :: 0 <= k < i && nodes[k].ms == newest
    {
      oldest, newest := Min(oldest, nodes[i].ms), Max(newest, nodes[i].ms);
    }
    assert nodes[..|nodes|] == nodes;
  }

  /** `lo` and `hi` are the edges the rows were measured against. */
  method Bucketize(nodes: seq<Node>, maxRows: nat, now: int) returns (rows: seq<Row>, ghost lo: int, ghost hi: int)
    ensures nodes == [] ==> rows == []
    ensures nodes != [] ==>
              && rows == Rows(nodes, StartOf(Choose(nodes, maxRows, lo, hi)), lo, hi)
              && Spans(nodes, lo, hi) && now <= hi
              && (exists i :: 0 <= i < |nodes| && nodes[i].ms == lo)
              && (hi == now || exists i :: 0 <= i < |nodes| && nodes[i].ms == hi)
    ensures Partitions(rows, nodes)
    ensures Legible(rows)
    ensures CountsRight(rows, nodes, StartOf(Choose(nodes, maxRows, lo, hi)))
    ensures |rows| > maxRows ==> DayLocked(lo, hi) || forall g :: RowCount(nodes, g) > maxRows
    ensures nodes != [] && DayLocked(lo, hi) ==> |rows| <= 33 + |Outside(nodes)|
  {
    lo, hi := 0, 0;
    if nodes == [] {
      return [], lo, hi;
    }
    var oldest, newest := Edges(nodes);
    var edge := Max(now, newest);
    lo, hi := oldest, edge;
    ChoiceFits(nodes, maxRows, lo, hi);
    if DayLocked(lo, hi) {
      LockedRowsAreFew(nodes, lo, hi);
    }
    RowsPartition(nodes, StartOf(Choose(nodes, maxRows, lo, hi)), lo, hi);
    RowsLegible(nodes, StartOf(Choose(nodes, maxRows, lo, hi)), lo, hi);
    RowsCountRight(nodes, StartOf(Choose(nodes, maxRows, lo, hi)), lo, hi);
    var span := SaturatingSub(edge, oldest);
    rows := BuildBuckets(nodes, Day, oldest, edge);
    if span > DAY_LOCK_SPAN_MS && |rows| > maxRows {
      rows := BuildBuckets(nodes, Month, oldest, edge);
      if |rows| > maxRows {
        rows := BuildBuckets(nodes, Year, oldest, edge);
      }
    }
  }

  /** A day with fewer nodes, or with as many but no earlier. */
  predicate Outdone(s: int, n: nat, day: int, count: nat) {
    n < count || (n == count && day <= s)
  }

  /** The day with the most nodes; of several, the earliest. */
  ghost predicate IsBusiest(nodes: seq<Node>, start: int -> int, day: int, count: nat) {
    && day in Starts(nodes, start) && count == Tally(nodes, start, day)
    && forall s :: s in Starts(nodes, start) ==> Outdone(s, Tally(nodes, start, s), day, count)
  }

  lemma StartsNext(nodes: seq<Node>, start: int -> int, i: nat)
    requires i < |nodes|
    ensures Starts(nodes[..i + 1], start) == Starts(nodes[..i], start) + {start(nodes[i].ms)}
  {
    var now, before := nodes[..i + 1], nodes[..i];
    assert now[i] == nodes[i] && forall k :: 0 <= k < i ==> now[k] == before[k];
  }

  lemma TallyNext(nodes: seq<Node>, start: int -> int, i: nat, s: int)
    requires i < |nodes|
    ensures Tally(nodes[..i + 1], start, s) == Tally(nodes[..i], start, s) + (if start(nodes[i].ms) == s then 1 else 0)
  {
    var now := nodes[..i + 1];
    assert now[..|now| - 1] == nodes[..i] && now[|now| - 1] == nodes[i];
  }

  method CountByDay(nodes: seq<Node>, start: int -> int) returns (counts: map<int, nat>)
    ensures counts.Keys == Starts(nodes, start)
    ensures forall s :: s in counts ==> counts[s] == Tally(nodes, start, s)
  {
    counts := map[];
    for i := 0 to |nodes|
      invariant counts.Keys == Starts(nodes[..i], start)
      invariant forall s :: s in counts ==> counts[s] == Tally(nodes[..i], start, s)
    {
      var s := start(nodes[i].ms);
      StartsNext(nodes, start, i);
      StartsAreTallied(nodes[..i], start, s);
      forall t
        ensures Tally(nodes[..i + 1], start, t) == Tally(nodes[..i], start, t) + (if s == t then 1 else 0)
      {
        TallyNext(nodes, start, i, t);
      }
      counts := counts[s := (if s in counts then counts[s] else 0) + 1];
    }
    assert nodes[..|nodes|] == nodes;
  }

  /** Walks the days in order of time; only a strictly larger count takes over. */
  method PickFirstLargest(keys: seq<int>, counts: seq<nat>) returns (day: int, count: nat)
    requires |keys| == |counts| && forall i, j :: 0 <= i < j < |keys| ==> keys[i] < keys[j]
    requires |keys| > 0 && forall i :: 0 <= i < |counts| ==> counts[i] > 0
    ensures exists i :: 0 <= i < |keys| && day == keys[i] && count == counts[i]
    ensures forall i :: 0 <= i < |keys| ==> Outdone(keys[i], counts[i], day, count)
  {
    day, count := 0, 0;
    ghost var at := 0;
    for i := 0 to |keys|
      invariant i == 0 ==> count == 0
      invariant i > 0 ==> 0 <= at < i && day == keys[at] && count == counts[at]
      invariant forall k :: 0 <= k < i ==> Outdone(keys[k], counts[k], day, count)
    {
      if counts[i] > count {
        day, count, at := keys[i], counts[i], i;
      }
    }
  }

  method InOrder(xs: set<int>) returns (keys: seq<int>)
    ensures forall i, j :: 0 <= i < j < |keys| ==> keys[i] < keys[j]
    ensures forall i :: 0 <= i < |keys| ==> keys[i] in xs
    ensures forall x :: x in xs ==> exists i :: 0 <= i < |keys| && keys[i] == x
    ensures |keys| == |xs|
  {
    keys := Ascending(xs);
    forall i | 0 <= i < |keys|
      ensures keys[i] in xs
    {
      assert keys[i] in keys;
    }
    forall x | x in xs
      ensures exists i :: 0 <= i < |keys| && keys[i] == x
    {
      assert x in keys;
    }
  }

  method BusiestBy(nodes: seq<Node>, start: int -> int) returns (day: int, count: nat)
    requires nodes != []
    ensures IsBusiest(nodes, start, day, count)
  {
    var counts := CountByDay(nodes, start);
    var keys := InOrder(counts.Keys);
    assert start(nodes[0].ms) in Starts(nodes, start);
    assert counts.Keys != {};
    forall i | 0 <= i < |keys|
      ensures counts[keys[i]] > 0
    {
      StartsAreTallied(nodes, start, keys[i]);
    }
    var tallies := seq(|keys|, i requires 0 <= i < |keys| => counts[keys[i]]);
    assert forall i :: 0 <= i < |tallies| ==> tallies[i] == counts[keys[i]] > 0;
    day, count := PickFirstLargest(keys, tallies);
  }

  method BusiestDay(nodes: seq<Node>) returns (r: Option<(int, nat)>)
    ensures r.None? <==> nodes == []
    ensures r.Some? ==> IsBusiest(nodes, DayStart, r.value.0, r.value.1)
  {
    if nodes == [] {
      return None;
    }
    var day, count := BusiestBy(nodes, DayStart);
    return Some((day, count));
  }
}
