/**
 The reconciliation: what the provider billed per model and day beside what the gateway
 recorded, the difference as its own figure, and totals that absorb nothing.

 Days are numbered.  The two sides are the answer rows of the two queries, already in scope:
 provider rows in the window that the connector's filter keeps, and the gateway's unblocked
 rows for the same provider in the window.
 */
module Reconcile {
  import opened Arith
  import opened CheckedSums
  import opened Wrappers

  const TWO_TO_64: int := 0x1_0000_0000_0000_0000
  const MAX_DAYS: int := 366
  const DEFAULT_DAYS: int := 31
  const MAX_TOLERANCE_CENTS: int := 1_000_000

  /** A model on a day. */
  datatype Cell = Cell(day: int, model: string)

  datatype ProviderLine = ProviderLine(report: string, cell: Cell, tokenType: string, tokens: int, micros: int)

  datatype GatewayLine = GatewayLine(cell: Cell, micros: int, tokensIn: int, tokensOut: int, fallback: int)

  datatype Status = Matched | GatewayUnder | GatewayOver | ProviderMissing

  /** The figures both sides give a cell. */
  datatype Sides = Sides(provider: int, gateway: int, providerIn: int, providerOut: int, gatewayIn: int,
                         gatewayOut: int, fallback: int)

  const NO_FIGURES := Sides(0, 0, 0, 0, 0, 0, 0)

  datatype ReconRow = ReconRow(sides: Sides, covered: bool, gap: int, status: Status)

  datatype Figure = ProviderMicros | GatewayMicros | ProviderIn | ProviderOut | GatewayIn | GatewayOut | FallbackMicros

  function Pick(s: Sides, f: Figure): int {
    match f
    case ProviderMicros => s.provider
    case GatewayMicros => s.gateway
    case ProviderIn => s.providerIn
    case ProviderOut => s.providerOut
    case GatewayIn => s.gatewayIn
    case GatewayOut => s.gatewayOut
    case FallbackMicros => s.fallback
  }

  // ------------------------------------------------------------ what each line is worth

  /** Everything one line of either side adds to a figure of its cell. */
  datatype Line = FromProvider(p: ProviderLine) | FromGateway(g: GatewayLine)
  {
    function At(): Cell {
      match this case FromProvider(p) => p.cell case FromGateway(g) => g.cell
    }

    function Worth(f: Figure, inputTypes: set<string>): int {
      match this
      case FromGateway(g) =>
        (match f
         case GatewayMicros => g.micros
         case GatewayIn => g.tokensIn
         case GatewayOut => g.tokensOut
         case FallbackMicros => g.fallback
         case _ => 0)
      case FromProvider(p) =>
        (match f
         case ProviderMicros => if p.report == "cost" then p.micros else 0
         case ProviderIn => if p.report != "cost" && p.tokenType in inputTypes then p.tokens else 0
         case ProviderOut =>
           if p.report != "cost" && p.tokenType !in inputTypes && p.tokenType == "output_tokens" then p.tokens else 0
         case _ => 0)
    }
  }

  function InCell(lines: seq<Line>, n: nat, c: Cell, f: Figure, inputTypes: set<string>): int
    requires n <= |lines|
  {
    if n == 0 then 0
    else InCell(lines, n - 1, c, f, inputTypes)
         + (if lines[n - 1].At() == c then lines[n - 1].Worth(f, inputTypes) else 0)
  }

  function InAll(lines: seq<Line>, n: nat, f: Figure, inputTypes: set<string>): int
    requires n <= |lines|
  {
    if n == 0 then 0 else InAll(lines, n - 1, f, inputTypes) + lines[n - 1].Worth(f, inputTypes)
  }

  predicate Met(lines: seq<Line>, n: nat, c: Cell)
    requires n <= |lines|
  {
    n > 0 && (lines[n - 1].At() == c || Met(lines, n - 1, c))
  }

  lemma {:induction false} MetIsAtALine(lines: seq<Line>, n: nat)
    requires n <= |lines|
    ensures forall c :: Met(lines, n, c) <==> exists i :: 0 <= i < n && lines[i].At() == c
  {
    if n > 0 {
      MetIsAtALine(lines, n - 1);
    }
  }

  /** What a line adds to a figure of a cell. */
  function Gain(lines: seq<Line>, l: Line, c: Cell, f: Figure, inputTypes: set<string>): int {
    InCell(lines + [l], |lines| + 1, c, f, inputTypes) - InCell(lines, |lines|, c, f, inputTypes)
  }

  /** One more line moves figures of its own cell only: a cost line the provider's money, a usage
      line the tokens of its direction if it has one, a gateway line all four of the gateway's. */
  lemma OneLineMoves(lines: seq<Line>, l: Line, c: Cell, f: Figure, inputTypes: set<string>)
    ensures var gain := Gain(lines, l, c, f, inputTypes);
            && (l.At() != c ==> gain == 0)
            && (l.At() == c && l.FromGateway? ==>
                  && (f == GatewayMicros ==> gain == l.g.micros) && (f == FallbackMicros ==> gain == l.g.fallback)
                  && (f == GatewayIn ==> gain == l.g.tokensIn) && (f == GatewayOut ==> gain == l.g.tokensOut)
                  && (f in {ProviderMicros, ProviderIn, ProviderOut} ==> gain == 0))
            && (l.At() == c && l.FromProvider? && l.p.report == "cost" ==>
                  gain == if f == ProviderMicros then l.p.micros else 0)
            && (l.At() == c && l.FromProvider? && l.p.report != "cost" && l.p.tokenType in inputTypes ==>
                  gain == if f == ProviderIn then l.p.tokens else 0)
            && (l.At() == c && l.FromProvider? && l.p.report != "cost" && l.p.tokenType !in inputTypes ==>
                  gain == if f == ProviderOut && l.p.tokenType == "output_tokens" then l.p.tokens else 0)
  {
    SameLines(lines, lines + [l], |lines|, c, f, inputTypes);
  }

  lemma {:induction false} SameLines(a: seq<Line>, b: seq<Line>, n: nat, c: Cell, f: Figure, inputTypes: set<string>)
    requires n <= |a| && n <= |b| && forall i :: 0 <= i < n ==> a[i] == b[i]
    ensures InCell(a, n, c, f, inputTypes) == InCell(b, n, c, f, inputTypes)
  {
    if n > 0 {
      SameLines(a, b, n - 1, c, f, inputTypes);
    }
  }

  function InCells(cells: seq<Cell>, m: nat, lines: seq<Line>, n: nat, f: Figure, inputTypes: set<string>): int
    requires m <= |cells| && n <= |lines|
  {
    if m == 0 then 0
    else InCells(cells, m - 1, lines, n, f, inputTypes) + InCell(lines, n, cells[m - 1], f, inputTypes)
  }

  predicate Distinct<T(==)>(s: seq<T>) {
    forall i, j :: 0 <= i < j < |s| ==> s[i] != s[j]
  }

  /** Every line lands in exactly one cell, so the cells add up to the lines. */
  lemma {:induction false} LinesAreConserved(cells: seq<Cell>, lines: seq<Line>, n: nat, f: Figure,
                                             inputTypes: set<string>)
    requires n <= |lines| && Distinct(cells) && forall i :: 0 <= i < n ==> lines[i].At() in cells
    ensures InCells(cells, |cells|, lines, n, f, inputTypes) == InAll(lines, n, f, inputTypes)
  {
    if n == 0 {
      NoLines(cells, |cells|, lines, f, inputTypes);
    } else {
      LinesAreConserved(cells, lines, n - 1, f, inputTypes);
      var i :| 0 <= i < |cells| && cells[i] == lines[n - 1].At();
      OneMoreLine(cells, |cells|, lines, n, f, inputTypes, i);
    }
  }

  lemma {:induction false} NoLines(cells: seq<Cell>, m: nat, lines: seq<Line>, f: Figure, inputTypes: set<string>)
    requires m <= |cells|
    ensures InCells(cells, m, lines, 0, f, inputTypes) == 0
  {
    if m > 0 {
      NoLines(cells, m - 1, lines, f, inputTypes);
    }
  }

  lemma {:induction false} OneMoreLine(cells: seq<Cell>, m: nat, lines: seq<Line>, n: nat, f: Figure,
                                       inputTypes: set<string>,
                                       i: nat)
    requires m <= |cells| && 0 < n <= |lines| && Distinct(cells) && i < |cells| && cells[i] == lines[n - 1].At()
    ensures InCells(cells, m, lines, n, f, inputTypes)
            == InCells(cells, m, lines, n - 1, f, inputTypes) + (if i < m then lines[n - 1].Worth(f, inputTypes) else 0)
  {
    if m > 0 {
      OneMoreLine(cells, m - 1, lines, n, f, inputTypes, i);
    }
  }

  // ------------------------------------------------------------------ the join

  function AddLine(s: Sides, line: Line, inputTypes: set<string>): Sides {
    match line
    case FromGateway(g) =>
      s.(gateway := Wrap(s.gateway + g.micros), gatewayIn := Wrap(s.gatewayIn + g.tokensIn),
         gatewayOut := Wrap(s.gatewayOut + g.tokensOut), fallback := Wrap(s.fallback + g.fallback))
    case FromProvider(p) =>
      if p.report == "cost" then s.(provider := Wrap(s.provider + p.micros))
      else if p.tokenType in inputTypes then s.(providerIn := Wrap(s.providerIn + p.tokens))
      else if p.tokenType == "output_tokens" then s.(providerOut := Wrap(s.providerOut + p.tokens))
      else s
  }

  /** s holds the cell's figures as 64 bits keep them. */
  ghost predicate HoldsCell(s: Sides, lines: seq<Line>, n: nat, c: Cell, inputTypes: set<string>)
    requires n <= |lines|
  {
    forall f :: Pick(s, f) == Wrap(InCell(lines, n, c, f, inputTypes))
  }

  lemma CellGrows(s: Sides, lines: seq<Line>, n: nat, inputTypes: set<string>)
    requires n < |lines| && HoldsCell(s, lines, n, lines[n].At(), inputTypes)
    ensures HoldsCell(AddLine(s, lines[n], inputTypes), lines, n + 1, lines[n].At(), inputTypes)
  {
    var c := lines[n].At();
    forall f ensures Pick(AddLine(s, lines[n], inputTypes), f) == Wrap(InCell(lines, n + 1, c, f, inputTypes)) {
      assert Pick(s, f) == Wrap(InCell(lines, n, c, f, inputTypes));
      WrapAdds(InCell(lines, n, c, f, inputTypes), lines[n].Worth(f, inputTypes));
    }
  }

  lemma OtherCellStays(s: Sides, lines: seq<Line>, n: nat, c: Cell, inputTypes: set<string>)
    requires n < |lines| && HoldsCell(s, lines, n, c, inputTypes) && lines[n].At() != c
    ensures HoldsCell(s, lines, n + 1, c, inputTypes)
  {
    forall f ensures Pick(s, f) == Wrap(InCell(lines, n + 1, c, f, inputTypes)) {
      assert Pick(s, f) == Wrap(InCell(lines, n, c, f, inputTypes));
    }
  }

  lemma {:induction false} UnmetCellIsEmpty(lines: seq<Line>, n: nat, c: Cell, inputTypes: set<string>)
    requires n <= |lines| && !Met(lines, n, c)
    ensures HoldsCell(NO_FIGURES, lines, n, c, inputTypes)
  {
    if n > 0 {
      UnmetCellIsEmpty(lines, n - 1, c, inputTypes);
      OtherCellStays(NO_FIGURES, lines, n - 1, c, inputTypes);
    }
  }

  /** A cell for each day and model either side knows, holding both sides' figures. */
  method Join(lines: seq<Line>, inputTypes: set<string>) returns (rows: map<Cell, Sides>)
    ensures forall c :: c in rows <==> Met(lines, |lines|, c)
    ensures forall c :: c in rows ==> HoldsCell(rows[c], lines, |lines|, c, inputTypes)
  {
    rows := map[];
    var i := 0;
    while i < |lines|
      invariant i <= |lines|
      invariant forall c :: c in rows <==> Met(lines, i, c)
      invariant forall c :: c in rows ==> HoldsCell(rows[c], lines, i, c, inputTypes)
    {
      var c := lines[i].At();
      if c !in rows {
        UnmetCellIsEmpty(lines, i, c, inputTypes);
      }
      var sofar := if c in rows then rows[c] else NO_FIGURES;
      CellGrows(sofar, lines, i, inputTypes);
      forall d | d in rows && d != c ensures HoldsCell(rows[d], lines, i + 1, d, inputTypes) {
        OtherCellStays(rows[d], lines, i, d, inputTypes);
      }
      rows := rows[c := AddLine(sofar, lines[i], inputTypes)];
      i := i + 1;
    }
  }

  // ------------------------------------------------------------------ the status

  /** Division as the machine does it, toward zero. */
  function Quo(a: int, b: nat): int
    requires b > 0
  {
    if a < 0 then -(-a / b) else a / b
  }

  function Rem(a: int, b: nat): int
    requires b > 0
  {
    a - Quo(a, b) * b
  }

  function AbsWrap(n: int): int {
    if n < 0 then Wrap(-n) else n
  }

  /** The rule as coded: the product is split so that it cannot overflow. */
  function ReconStatus(covered: bool, provider: int, gap: int, tolCents: int, tolBP: int): Status {
    if !covered then ProviderMissing
    else
      var ap, ag := AbsWrap(provider), AbsWrap(gap);
      var rel := Quo(ap, 10_000) * tolBP + Quo(Rem(ap, 10_000) * tolBP, 10_000);
      var tol := if rel > tolCents * 10_000 then rel else tolCents * 10_000;
      if ag <= tol then Matched else if gap < 0 then GatewayUnder else GatewayOver
  }

  /** The larger of so many cents and so many basis points of the provider's figure. */
  function Tolerance(provider: int, tolCents: int, tolBP: int): int {
    var share := Abs(provider) * tolBP / 10_000;
    if share > tolCents * 10_000 then share else tolCents * 10_000
  }

  function StatusMeant(covered: bool, provider: int, gap: int, tolCents: int, tolBP: int): Status {
    if !covered then ProviderMissing
    else if Abs(gap) <= Tolerance(provider, tolCents, tolBP) then Matched
    else if gap < 0 then GatewayUnder
    else GatewayOver
  }

  /** Within so many cents, or so many basis points of the provider's figure. */
  predicate Near(provider: int, gap: int, tolCents: int, tolBP: int) {
    Abs(gap) <= 10_000 * tolCents || Abs(gap) * 10_000 <= Abs(provider) * tolBP
  }

  /** The rule in amounts: not rounded, and whichever tolerance is the wider. */
  lemma RuleInAmounts(covered: bool, provider: int, gap: int, tolCents: int, tolBP: int)
    requires Settings(tolCents, tolBP)
    ensures var st, near := StatusMeant(covered, provider, gap, tolCents, tolBP), Near(provider, gap, tolCents, tolBP);
            && (st == ProviderMissing <==> !covered)
            && (st == Matched <==> covered && near)
            && (st == GatewayUnder <==> covered && !near && gap < 0)
            && (st == GatewayOver <==> covered && !near && gap > 0)
  {
    MulNonNegative(Abs(provider), tolBP);
    WithinAShare(Abs(gap), Abs(provider) * tolBP);
  }

  lemma WithinAShare(gap: nat, share: nat)
    ensures gap <= share / 10_000 <==> gap * 10_000 <= share
  {
  }

  predicate Settings(tolCents: int, tolBP: int) {
    0 <= tolCents <= MAX_TOLERANCE_CENTS && 0 <= tolBP <= 10_000
  }

  /** The split product is the share itself, and no step of it leaves 64 bits. */
  lemma SplitProductIsExact(ap: int, bp: int)
    requires 0 <= ap <= MAX_INT64 && 0 <= bp <= 10_000
    ensures ap / 10_000 * bp + ap % 10_000 * bp / 10_000 == ap * bp / 10_000
    ensures 0 <= ap / 10_000 * bp <= ap && 0 <= ap % 10_000 * bp < 100_000_000
    ensures 0 <= ap / 10_000 * bp + ap % 10_000 * bp / 10_000 <= ap
  {
    var q, r := ap / 10_000, ap % 10_000;
    MulMonotone(bp, 10_000, q);
    MulMonotone(bp, 10_000, r);
    MulNonNegative(q, bp);
    MulNonNegative(r, bp);
    MulAdds(q * 10_000, r, bp);
    MulSwaps(q, 10_000, bp);
    ShareOf(q * bp, r * bp);
    MulMonotone(r, 9_999, bp);
  }

  lemma ShareOf(a: int, b: int)
    ensures (a * 10_000 + b) / 10_000 == a + b / 10_000
  {
  }

  /** The coded rule on a figure and a gap that 64 bits hold with their magnitudes. */
  lemma StatusOfAKeptGap(covered: bool, provider: int, gap: int, tolCents: int, tolBP: int)
    requires FitsInt64(provider) && FitsInt64(gap) && Settings(tolCents, tolBP) && provider != MIN_INT64
    ensures ReconStatus(covered, provider, gap, tolCents, tolBP) == StatusMeant(covered, provider, gap, tolCents, tolBP)
            <==> !covered || gap != MIN_INT64
  {
    SplitProductIsExact(Abs(provider), tolBP);
    QuoRemOfMagnitude(Abs(provider), tolBP);
  }

  lemma QuoRemOfMagnitude(ap: int, bp: int)
    requires ap >= 0 && bp >= 0
    ensures Quo(ap, 10_000) == ap / 10_000 && Rem(ap, 10_000) == ap % 10_000
    ensures Quo(Rem(ap, 10_000) * bp, 10_000) == ap % 10_000 * bp / 10_000
  {
    MulNonNegative(ap % 10_000, bp);
  }

  /** A row's status is the rule's on the true difference if and only if the day is not covered
      or the difference stays within 64 bits: past them an overpaying gateway is called under, or a
      match.  One pair of figures agrees by luck, nothing against the lowest provider figure under
      a tolerance of all of it. */
  lemma StatusIsMeantIff(covered: bool, provider: int, gateway: int, tolCents: int, tolBP: int)
    requires FitsInt64(provider) && 0 <= gateway <= MAX_INT64 && Settings(tolCents, tolBP)
    ensures ReconStatus(covered, provider, Wrap(gateway - provider), tolCents, tolBP)
            == StatusMeant(covered, provider, gateway - provider, tolCents, tolBP)
            <==> !covered || FitsInt64(gateway - provider)
                 || (provider == MIN_INT64 && gateway == 0 && tolBP == 10_000)
  {
    if FitsInt64(gateway - provider) {
      StatusOfAKeptGap(covered, provider, gateway - provider, tolCents, tolBP);
    } else if provider == MIN_INT64 {
      WrapOnce(gateway - provider);
      LowestProvider(gateway, tolCents, tolBP);
    } else {
      WrapOnce(gateway - provider);
      PastTheRange(provider, gateway - provider, tolCents, tolBP);
    }
  }

  lemma WrapOnce(n: int)
    requires MAX_INT64 < n <= MAX_INT64 - MIN_INT64
    ensures Wrap(n) == n - TWO_TO_64 < 0
  {
  }

  lemma PastTheRange(provider: int, gap: int, tolCents: int, tolBP: int)
    requires MIN_INT64 < provider < 0 && MAX_INT64 < gap <= 2 * MAX_INT64 && Settings(tolCents, tolBP)
    ensures StatusMeant(true, provider, gap, tolCents, tolBP) == GatewayOver
    ensures ReconStatus(true, provider, gap - TWO_TO_64, tolCents, tolBP) != GatewayOver
  {
    SplitProductIsExact(Abs(provider), tolBP);
  }

  lemma LowestProvider(gateway: int, tolCents: int, tolBP: int)
    requires 0 <= gateway <= MAX_INT64 && Settings(tolCents, tolBP)
    ensures ReconStatus(true, MIN_INT64, gateway - MIN_INT64 - TWO_TO_64, tolCents, tolBP) != GatewayOver
    ensures gateway > 0 ==> StatusMeant(true, MIN_INT64, gateway - MIN_INT64, tolCents, tolBP) == GatewayOver
    ensures gateway == 0 ==> ReconStatus(true, MIN_INT64, MIN_INT64, tolCents, tolBP) == Matched
    ensures gateway == 0 ==> (StatusMeant(true, MIN_INT64, -MIN_INT64, tolCents, tolBP) == Matched <==> tolBP == 10_000)
  {
  }

  /** The largest gateway figure beside a credit of ten micro-dollars is called under, and beside
      a credit of one a match. */
  lemma WrappedGapIsMisjudged(tolCents: int, tolBP: int)
    requires Settings(tolCents, tolBP)
    ensures ReconStatus(true, -10, Wrap(MAX_INT64 + 10), tolCents, tolBP) == GatewayUnder
    ensures ReconStatus(true, -1, Wrap(MAX_INT64 + 1), tolCents, tolBP) == Matched
    ensures StatusMeant(true, -10, MAX_INT64 + 10, tolCents, tolBP) == GatewayOver
    ensures StatusMeant(true, -1, MAX_INT64 + 1, tolCents, tolBP) == GatewayOver
  {
    WrapOnce(MAX_INT64 + 10);
    WrapOnce(MAX_INT64 + 1);
    SplitProductIsExact(10, tolBP);
    SplitProductIsExact(1, tolBP);
    QuoRemOfMagnitude(10, tolBP);
    QuoRemOfMagnitude(1, tolBP);
  }

  // ------------------------------------------------------------------ the totals

  datatype Reconciliation = Reconciliation(rows: map<Cell, ReconRow>, provider: int, gateway: int, gap: int,
                                           counts: map<Status, nat>, daysCovered: nat, daysMissing: nat)

  /** The rows' figures in the order the rows come. */
  function Column(cells: seq<Cell>, rows: map<Cell, ReconRow>, f: Figure): (amounts: seq<int>)
    requires AllIn(cells, rows)
    ensures |amounts| == |cells|
  {
    seq(|cells|, i requires 0 <= i < |cells| => Pick(rows[cells[i]].sides, f))
  }

  predicate AllIn(cells: seq<Cell>, rows: map<Cell, ReconRow>) {
    forall i :: 0 <= i < |cells| ==> cells[i] in rows
  }

  function Gaps(cells: seq<Cell>, rows: map<Cell, ReconRow>): (amounts: seq<int>)
    requires AllIn(cells, rows)
    ensures |amounts| == |cells|
  {
    seq(|cells|, i requires 0 <= i < |cells| => rows[cells[i]].gap)
  }

  function Gap(s: Sides): int {
    Wrap(s.gateway - s.provider)
  }

  ghost predicate GapsMeant(rows: map<Cell, ReconRow>) {
    forall c :: c in rows ==> rows[c].gap == Gap(rows[c].sides)
  }

  /** The gap of the totals is the total of the gaps, as 64 bits keep both. */
  lemma {:induction false} GapsAddUp(cells: seq<Cell>, rows: map<Cell, ReconRow>, n: nat)
    requires n <= |cells| && AllIn(cells, rows) && GapsMeant(rows)
    ensures Wrap(Total(Gaps(cells, rows), n))
            == Wrap(Total(Column(cells, rows, GatewayMicros), n) - Total(Column(cells, rows, ProviderMicros), n))
  {
    if n > 0 {
      GapsAddUp(cells, rows, n - 1);
      var g, p := Total(Column(cells, rows, GatewayMicros), n - 1), Total(Column(cells, rows, ProviderMicros), n - 1);
      var s := rows[cells[n - 1]].sides;
      WrapAdds(Total(Gaps(cells, rows), n - 1), Gap(s));
      WrapAdds(g - p, Gap(s));
      WrapAdds(s.gateway - s.provider, g - p);
    }
  }

  /** How many of the first n rows have a status. */
  function CountOf(cells: seq<Cell>, rows: map<Cell, ReconRow>, n: nat, st: Status): nat
    requires n <= |cells| && AllIn(cells, rows)
  {
    if n == 0 then 0 else CountOf(cells, rows, n - 1, st) + (if rows[cells[n - 1]].status == st then 1 else 0)
  }

  ghost function WithStatus(rows: map<Cell, ReconRow>, st: Status): set<Cell> {
    set c | c in rows && rows[c].status == st
  }

  function CellsWith(cells: seq<Cell>, rows: map<Cell, ReconRow>, n: nat, st: Status): set<Cell>
    requires n <= |cells| && AllIn(cells, rows)
  {
    if n == 0 then {}
    else if rows[cells[n - 1]].status == st then CellsWith(cells, rows, n - 1, st) + {cells[n - 1]}
    else CellsWith(cells, rows, n - 1, st)
  }

  lemma {:induction false} CellsWithIff(cells: seq<Cell>, rows: map<Cell, ReconRow>, n: nat, st: Status, c: Cell)
    requires n <= |cells| && AllIn(cells, rows)
    ensures c in CellsWith(cells, rows, n, st) <==>
            (exists i :: 0 <= i < n && cells[i] == c) && rows[c].status == st
  {
    if n > 0 {
      CellsWithIff(cells, rows, n - 1, st, c);
    }
  }

  lemma {:induction false} CountIsOfTheCells(cells: seq<Cell>, rows: map<Cell, ReconRow>, n: nat, st: Status)
    requires n <= |cells| && AllIn(cells, rows) && Distinct(cells)
    ensures CountOf(cells, rows, n, st) == |CellsWith(cells, rows, n, st)|
  {
    if n > 0 {
      CountIsOfTheCells(cells, rows, n - 1, st);
      CellsWithIff(cells, rows, n - 1, st, cells[n - 1]);
      assert cells[n - 1] !in CellsWith(cells, rows, n - 1, st);
    }
  }

  function Counted(counts: map<Status, nat>, st: Status): nat {
    if st in counts then counts[st] else 0
  }

  /** The counts kept while the rows go by. */
  function Tallies(cells: seq<Cell>, rows: map<Cell, ReconRow>, n: nat): map<Status, nat>
    requires n <= |cells| && AllIn(cells, rows)
  {
    if n == 0 then map[]
    else
      var before, st := Tallies(cells, rows, n - 1), rows[cells[n - 1]].status;
      before[st := Counted(before, st) + 1]
  }

  function AllCounted(counts: map<Status, nat>): nat {
    Counted(counts, Matched) + Counted(counts, GatewayUnder) + Counted(counts, GatewayOver)
    + Counted(counts, ProviderMissing)
  }

  /** Every row has one status. */
  lemma {:induction false} TalliesCount(cells: seq<Cell>, rows: map<Cell, ReconRow>, n: nat)
    requires n <= |cells| && AllIn(cells, rows)
    ensures forall st :: Counted(Tallies(cells, rows, n), st) == CountOf(cells, rows, n, st)
    ensures AllCounted(Tallies(cells, rows, n)) == n
  {
    if n > 0 {
      TalliesCount(cells, rows, n - 1);
    }
  }

  /** The days of a window that are covered. */
  function CoveredDays(covered: set<int>, from: int, n: nat): nat {
    if n == 0 then 0 else CoveredDays(covered, from, n - 1) + (if from + n - 1 in covered then 1 else 0)
  }

  lemma {:induction false} CoveredAreTheDays(covered: set<int>, from: int, n: nat)
    ensures CoveredDays(covered, from, n) == |set d | d in covered && from <= d < from + n|
  {
    if n == 0 {
      assert (set d | d in covered && from <= d < from) == {};
    } else {
      var was := set d | d in covered && from <= d < from + n - 1;
      var now := set d | d in covered && from <= d < from + n;
      CoveredAreTheDays(covered, from, n - 1);
      assert now == if from + n - 1 in covered then was + {from + n - 1} else was;
    }
  }

  method CountDays(covered: set<int>, from: int, to: int) returns (have: nat, missing: nat)
    requires from <= to
    ensures have == CoveredDays(covered, from, to - from + 1) && have + missing == to - from + 1
    ensures have == |set d | d in covered && from <= d <= to|
  {
    have, missing := 0, 0;
    var d := from;
    while d <= to
      invariant from <= d <= to + 1
      invariant have == CoveredDays(covered, from, d - from) && have + missing == d - from
    {
      if d in covered {
        have := have + 1;
      } else {
        missing := missing + 1;
      }
      d := d + 1;
    }
    CoveredAreTheDays(covered, from, d - from);
    assert (set x | x in covered && from <= x < from + (d - from)) == set x | x in covered && from <= x <= to;
  }

  /** Which days are compared: those asked for, or none because no end was asked for and neither
      side has a day to end on, or a refusal. */
  datatype WindowAnswer = Granted(from: int, to: int) | NoDays | BackToFront | TooLong

  /** Both ends asked for are granted exactly when they are in order and close enough; a missing
      end is the latest day either side has, a missing start so many days before the end. */
  function Window(from: Option<int>, to: Option<int>, latest: Option<int>): (w: WindowAnswer)
    ensures w.NoDays? <==> latest.None? && (from.None? || to.None?)
    ensures w.Granted? ==> 0 <= w.to - w.from < 366
    ensures from.Some? && to.Some? ==>
              (w == Granted(from.value, to.value) <==> 0 <= to.value - from.value < 366)
    ensures from.Some? && to.None? && latest.Some? ==>
              (w == Granted(from.value, latest.value) <==> 0 <= latest.value - from.value < 366)
    ensures from.None? && to.Some? && latest.Some? ==> w == Granted(to.value - 30, to.value)
    ensures from.None? && to.None? && latest.Some? ==> w == Granted(latest.value - 30, latest.value)
    ensures w.BackToFront? ==> from.Some? && from.value > (if to.Some? then to.value else latest.value)
    ensures w.TooLong? ==> from.Some? && (if to.Some? then to.value else latest.value) - from.value >= 366
  {
    if (from.None? || to.None?) && latest.None? then NoDays
    else
      var last := if to.Some? then to.value else latest.value;
      var first := if from.Some? then from.value else last - (DEFAULT_DAYS - 1);
      if first > last then BackToFront else if last - first > MAX_DAYS - 1 then TooLong else Granted(first, last)
  }

  /** The keys of a map in whatever order it gives them. */
  method Enumerate(rows: map<Cell, ReconRow>) returns (cells: seq<Cell>)
    ensures Distinct(cells) && |cells| == |rows| && AllIn(cells, rows) && forall c :: c in cells <==> c in rows
  {
    cells := [];
    var todo := rows.Keys;
    while todo != {}
      invariant todo <= rows.Keys && Distinct(cells) && |cells| == |rows| - |todo| && AllIn(cells, rows)
      invariant forall c :: c in cells <==> c in rows.Keys - todo
    {
      var c :| c in todo;
      assert forall i :: 0 <= i < |cells| ==> cells[i] in cells;
      cells := cells + [c];
      todo := todo - {c};
    }
  }

  function Closed(s: Sides, covered: bool, tolCents: int, tolBP: int): ReconRow {
    ReconRow(s, covered, Gap(s), ReconStatus(covered, s.provider, Gap(s), tolCents, tolBP))
  }

  /** Each cell either side knows has a row: both sides' figures, their gap, its status. */
  ghost predicate RowsMeant(rows: map<Cell, ReconRow>, lines: seq<Line>, inputTypes: set<string>, covered: set<int>,
                            tolCents: int, tolBP: int)
  {
    && (forall c :: c in rows <==> Met(lines, |lines|, c))
    && (forall c :: c in rows ==> HoldsCell(rows[c].sides, lines, |lines|, c, inputTypes))
    && (forall c :: c in rows ==> rows[c] == Closed(rows[c].sides, c.day in covered, tolCents, tolBP))
  }

  method CloseRows(lines: seq<Line>, inputTypes: set<string>, covered: set<int>, tolCents: int, tolBP: int)
    returns (rows: map<Cell, ReconRow>)
    ensures RowsMeant(rows, lines, inputTypes, covered, tolCents, tolBP) && FiguresFit(rows) && GapsMeant(rows)
  {
    var sides := Join(lines, inputTypes);
    rows := map c | c in sides :: Closed(sides[c], c.day in covered, tolCents, tolBP);
    forall c, f | c in rows ensures FitsInt64(Pick(rows[c].sides, f)) {
      assert Pick(sides[c], f) == Wrap(InCell(lines, |lines|, c, f, inputTypes));
    }
  }

  ghost predicate FiguresFit(rows: map<Cell, ReconRow>) {
    forall c, f :: c in rows ==> FitsInt64(Pick(rows[c].sides, f))
  }

  lemma ColumnsFit(cells: seq<Cell>, rows: map<Cell, ReconRow>, f: Figure)
    requires AllIn(cells, rows) && FiguresFit(rows)
    ensures AllFit(Column(cells, rows, f))
  {
  }

  /** Taking the rows in this order, some addition leaves 64 bits. */
  ghost predicate TotalsRefused(cells: seq<Cell>, rows: map<Cell, ReconRow>) {
    && AllIn(cells, rows) && AllFit(Column(cells, rows, ProviderMicros)) && AllFit(Column(cells, rows, GatewayMicros))
    && (AddAll(Column(cells, rows, ProviderMicros), |cells|).None?
        || AddAll(Column(cells, rows, GatewayMicros), |cells|).None?)
  }

  /** The rows totalled in the order they come, or none when a total is refused. */
  method TotalRows(cells: seq<Cell>, rows: map<Cell, ReconRow>)
    returns (totals: Option<(int, int)>, counts: map<Status, nat>)
    requires AllIn(cells, rows)
    requires AllFit(Column(cells, rows, ProviderMicros)) && AllFit(Column(cells, rows, GatewayMicros))
    ensures totals.None? <==> TotalsRefused(cells, rows)
    ensures totals.Some? ==> totals.value == (Total(Column(cells, rows, ProviderMicros), |cells|),
                                              Total(Column(cells, rows, GatewayMicros), |cells|))
    ensures totals.Some? ==> counts == Tallies(cells, rows, |cells|)
  {
    counts := map[];
    var provider, gateway := 0, 0;
    ghost var ps, gs := Column(cells, rows, ProviderMicros), Column(cells, rows, GatewayMicros);
    var i := 0;
    while i < |cells|
      invariant i <= |cells| && counts == Tallies(cells, rows, i)
      invariant AddAll(ps, i) == Some(provider) && AddAll(gs, i) == Some(gateway)
    {
      var row := rows[cells[i]];
      assert row.sides.provider == ps[i] && row.sides.gateway == gs[i];
      var p, g := AddMicros(provider, row.sides.provider), AddMicros(gateway, row.sides.gateway);
      if p.None? || g.None? {
        Refused(ps, gs, i);
        return None, counts;
      }
      provider, gateway := p.value, g.value;
      counts := counts[row.status := Counted(counts, row.status) + 1];
      i := i + 1;
    }
    totals := Some((provider, gateway));
  }

  lemma Refused(ps: seq<int>, gs: seq<int>, i: nat)
    requires AllFit(ps) && AllFit(gs) && |ps| == |gs| && i < |ps|
    requires AddAll(ps, i + 1).None? || AddAll(gs, i + 1).None?
    ensures AddAll(ps, |ps|).None? || AddAll(gs, |gs|).None?
  {
    if AddAll(ps, |ps|).Some? && AddAll(gs, |gs|).Some? {
      FitsSoFar(ps, i + 1);
      FitsSoFar(gs, i + 1);
    }
  }

  ghost predicate TotalsMeant(r: Reconciliation, cells: seq<Cell>) {
    && AllIn(cells, r.rows)
    && r.provider == Total(Column(cells, r.rows, ProviderMicros), |cells|)
    && r.gateway == Total(Column(cells, r.rows, GatewayMicros), |cells|)
    && r.gap == Wrap(r.gateway - r.provider) == Wrap(Total(Gaps(cells, r.rows), |cells|))
  }

  // ------------------------------------------------------------ gaps that leave 64 bits

  /** The gateway's query answers one line for a day and model, in 64 bits. */
  ghost predicate OneGatewayLineACell(lines: seq<Line>) {
    && (forall i :: 0 <= i < |lines| && lines[i].FromGateway? ==> FitsInt64(lines[i].g.micros))
    && (forall i, j :: 0 <= i < j < |lines| && lines[i].FromGateway? && lines[j].FromGateway? ==>
          lines[i].At() != lines[j].At())
  }

  /** No gateway call is stored with an amount below zero. */
  ghost predicate NoGatewayCredits(lines: seq<Line>) {
    forall i :: 0 <= i < |lines| && lines[i].FromGateway? ==> lines[i].g.micros >= 0
  }

  lemma {:induction false} NoGatewayCellWraps(lines: seq<Line>, n: nat, c: Cell, inputTypes: set<string>)
    requires n <= |lines| && OneGatewayLineACell(lines)
    ensures FitsInt64(InCell(lines, n, c, GatewayMicros, inputTypes))
    ensures (forall i :: 0 <= i < n && lines[i].FromGateway? ==> lines[i].At() != c) ==>
              InCell(lines, n, c, GatewayMicros, inputTypes) == 0
    ensures NoGatewayCredits(lines) ==> InCell(lines, n, c, GatewayMicros, inputTypes) >= 0
  {
    if n > 0 {
      NoGatewayCellWraps(lines, n - 1, c, inputTypes);
    }
  }

  /** A row's gap is the difference of its figures, and its status the rule's on that difference,
      each exactly as far as 64 bits hold the difference. */
  ghost predicate Judged(row: ReconRow, tolCents: int, tolBP: int) {
    var provider, gateway := row.sides.provider, row.sides.gateway;
    && (row.gap == gateway - provider <==> FitsInt64(gateway - provider))
    && (row.status == StatusMeant(row.covered, provider, gateway - provider, tolCents, tolBP)
        <==> !row.covered || FitsInt64(gateway - provider)
             || (provider == MIN_INT64 && gateway == 0 && tolBP == 10_000))
  }

  ghost predicate JudgedIff(rows: map<Cell, ReconRow>, tolCents: int, tolBP: int) {
    forall c :: c in rows ==> Judged(rows[c], tolCents, tolBP)
  }

  /** A row is marked covered on the days the provider reported, and answers that the provider is
      missing on all others and only there. */
  ghost predicate MarkedByDay(rows: map<Cell, ReconRow>, covered: set<int>) {
    && (forall c :: c in rows ==> rows[c].covered == (c.day in covered))
    && (forall c :: c in rows ==> (rows[c].status == ProviderMissing <==> c.day !in covered))
  }

  /** A covered row whose difference 64 bits hold is matched, under or over as the amounts are. */
  ghost predicate JudgedInAmounts(rows: map<Cell, ReconRow>, covered: set<int>, tolCents: int, tolBP: int) {
    forall c :: c in rows && c.day in covered ==>
      FollowsTheAmounts(rows[c].status, rows[c].sides.provider, rows[c].sides.gateway, tolCents, tolBP)
  }

  predicate FollowsTheAmounts(st: Status, provider: int, gateway: int, tolCents: int, tolBP: int) {
    FitsInt64(gateway - provider) ==>
      var near := Near(provider, gateway - provider, tolCents, tolBP);
      && (st == Matched <==> near)
      && (st == GatewayUnder <==> !near && gateway < provider)
      && (st == GatewayOver <==> !near && gateway > provider)
  }

  lemma RowsAreMarked(rows: map<Cell, ReconRow>, lines: seq<Line>, inputTypes: set<string>, covered: set<int>,
                      tolCents: int, tolBP: int)
    requires RowsMeant(rows, lines, inputTypes, covered, tolCents, tolBP)
    ensures MarkedByDay(rows, covered)
  {
  }

  lemma RowsFollowTheAmounts(rows: map<Cell, ReconRow>, covered: set<int>, tolCents: int, tolBP: int)
    requires JudgedIff(rows, tolCents, tolBP) && MarkedByDay(rows, covered) && Settings(tolCents, tolBP)
    ensures JudgedInAmounts(rows, covered, tolCents, tolBP)
  {
    forall c | c in rows && c.day in covered
      ensures FollowsTheAmounts(rows[c].status, rows[c].sides.provider, rows[c].sides.gateway, tolCents, tolBP)
    {
      var provider, gateway := rows[c].sides.provider, rows[c].sides.gateway;
      assert Judged(rows[c], tolCents, tolBP) && rows[c].covered;
      RuleInAmounts(true, provider, gateway - provider, tolCents, tolBP);
    }
  }

  lemma RowsAreJudged(rows: map<Cell, ReconRow>, lines: seq<Line>, inputTypes: set<string>, covered: set<int>,
                      tolCents: int, tolBP: int)
    requires RowsMeant(rows, lines, inputTypes, covered, tolCents, tolBP) && Settings(tolCents, tolBP)
    requires OneGatewayLineACell(lines) && NoGatewayCredits(lines)
    ensures JudgedIff(rows, tolCents, tolBP)
    ensures forall c :: c in rows ==> rows[c].sides.gateway == InCell(lines, |lines|, c, GatewayMicros, inputTypes)
    ensures forall c :: c in rows ==>
              (rows[c].sides.provider == InCell(lines, |lines|, c, ProviderMicros, inputTypes)
               <==> FitsInt64(InCell(lines, |lines|, c, ProviderMicros, inputTypes)))
  {
    forall c | c in rows
      ensures Judged(rows[c], tolCents, tolBP)
      ensures rows[c].sides.gateway == InCell(lines, |lines|, c, GatewayMicros, inputTypes)
      ensures rows[c].sides.provider == Wrap(InCell(lines, |lines|, c, ProviderMicros, inputTypes))
    {
      NoGatewayCellWraps(lines, |lines|, c, inputTypes);
      var s := rows[c].sides;
      assert Pick(s, GatewayMicros) == Wrap(InCell(lines, |lines|, c, GatewayMicros, inputTypes));
      assert Pick(s, ProviderMicros) == Wrap(InCell(lines, |lines|, c, ProviderMicros, inputTypes));
      StatusIsMeantIff(c.day in covered, s.provider, s.gateway, tolCents, tolBP);
    }
  }

  /** How often 64 bits are left over when n is kept in them. */
  function Spill(n: int): int {
    (n - MIN_INT64) / TWO_TO_64
  }

  lemma WrapSpills(n: int)
    ensures n == Wrap(n) + TWO_TO_64 * Spill(n)
    ensures Spill(n) == 0 <==> FitsInt64(n)
    ensures n >= 0 ==> Spill(n) >= 0
  {
  }

  /** What the rows' gaps lost to their 64 bits. */
  function GapSpills(cells: seq<Cell>, rows: map<Cell, ReconRow>, n: nat): int
    requires n <= |cells| && AllIn(cells, rows)
  {
    if n == 0 then 0
    else
      var s := rows[cells[n - 1]].sides;
      GapSpills(cells, rows, n - 1) + Spill(s.gateway - s.provider)
  }

  lemma {:induction false} GapsAndSpills(cells: seq<Cell>, rows: map<Cell, ReconRow>, n: nat)
    requires n <= |cells| && AllIn(cells, rows) && GapsMeant(rows)
    ensures Total(Gaps(cells, rows), n) + TWO_TO_64 * GapSpills(cells, rows, n)
            == Total(Column(cells, rows, GatewayMicros), n) - Total(Column(cells, rows, ProviderMicros), n)
  {
    if n > 0 {
      GapsAndSpills(cells, rows, n - 1);
      var s := rows[cells[n - 1]].sides;
      WrapSpills(s.gateway - s.provider);
    }
  }

  /** The total gap is the total of the rows' gaps if and only if the difference of the totals
      left 64 bits as often as the rows' differences did together. */
  lemma GapIsTheGapsIff(r: Reconciliation, cells: seq<Cell>)
    requires TotalsMeant(r, cells) && GapsMeant(r.rows)
    ensures r.gap + TWO_TO_64 * Spill(r.gateway - r.provider) == r.gateway - r.provider
            == Total(Gaps(cells, r.rows), |cells|) + TWO_TO_64 * GapSpills(cells, r.rows, |cells|)
    ensures r.gap == Total(Gaps(cells, r.rows), |cells|)
            <==> Spill(r.gateway - r.provider) == GapSpills(cells, r.rows, |cells|)
  {
    GapsAndSpills(cells, r.rows, |cells|);
    WrapSpills(r.gateway - r.provider);
  }

  lemma EachStatusIsCounted(cells: seq<Cell>, rows: map<Cell, ReconRow>)
    requires Distinct(cells) && AllIn(cells, rows) && forall c :: c in rows ==> c in cells
    ensures forall st :: Counted(Tallies(cells, rows, |cells|), st) == |WithStatus(rows, st)|
  {
    TalliesCount(cells, rows, |cells|);
    forall st ensures CountOf(cells, rows, |cells|, st) == |WithStatus(rows, st)| {
      CountIsOfTheCells(cells, rows, |cells|, st);
      forall c ensures c in CellsWith(cells, rows, |cells|, st) <==> c in WithStatus(rows, st) {
        CellsWithIff(cells, rows, |cells|, st, c);
      }
      assert CellsWith(cells, rows, |cells|, st) == WithStatus(rows, st);
    }
  }

  /** The totals, their gap and the counts of rows in the order they come. */
  method Totalled(cells: seq<Cell>, rows: map<Cell, ReconRow>, have: nat, missing: nat)
    returns (r: Option<Reconciliation>)
    requires AllIn(cells, rows) && FiguresFit(rows) && GapsMeant(rows)
    requires Distinct(cells) && forall c :: c in rows ==> c in cells
    ensures r.None? <==> TotalsRefused(cells, rows)
    ensures r.Some? ==> forall st :: Counted(r.value.counts, st) == |WithStatus(rows, st)|
    ensures r.Some? ==> r.value.rows == rows && TotalsMeant(r.value, cells) && AllCounted(r.value.counts) == |cells|
    ensures r.Some? ==> r.value.daysCovered == have && r.value.daysMissing == missing
  {
    ColumnsFit(cells, rows, ProviderMicros);
    ColumnsFit(cells, rows, GatewayMicros);
    var totals, counts := TotalRows(cells, rows);
    if totals.None? {
      return None;
    }
    GapsAddUp(cells, rows, |cells|);
    TalliesCount(cells, rows, |cells|);
    EachStatusIsCounted(cells, rows);
    var (provider, gateway) := totals.value;
    r := Some(Reconciliation(rows, provider, gateway, Wrap(gateway - provider), counts, have, missing));
  }

  /** One connector over one window.  Each day and model either side knows has one row with
      both sides' figures, their gap and the status of it; the totals are the rows' totals,
      their gap the total of the gaps; every row and every day is counted once. */
  method Reconcile(lines: seq<Line>, inputTypes: set<string>, covered: set<int>, from: int, to: int,
                   tolCents: int, tolBP: int)
    returns (r: Option<Reconciliation>, ghost cells: seq<Cell>, ghost rows: map<Cell, ReconRow>)
    requires from <= to && Settings(tolCents, tolBP)
    ensures Distinct(cells) && forall c :: c in cells <==> Met(lines, |lines|, c)
    ensures RowsMeant(rows, lines, inputTypes, covered, tolCents, tolBP)
    ensures r.None? <==> TotalsRefused(cells, rows)
    ensures r.Some? ==> r.value.rows == rows && TotalsMeant(r.value, cells)
    ensures r.Some? ==> AllCounted(r.value.counts) == |cells| == |rows|
    ensures r.Some? ==> r.value.daysCovered == CoveredDays(covered, from, to - from + 1)
    ensures r.Some? ==> r.value.daysCovered + r.value.daysMissing == to - from + 1
    ensures OneGatewayLineACell(lines) && NoGatewayCredits(lines) ==>
              JudgedIff(rows, tolCents, tolBP) && JudgedInAmounts(rows, covered, tolCents, tolBP)
    ensures forall c :: c in rows <==> exists i :: 0 <= i < |lines| && lines[i].At() == c
    ensures MarkedByDay(rows, covered)
    ensures r.Some? ==> forall st :: Counted(r.value.counts, st) == |WithStatus(rows, st)|
    ensures r.Some? ==> r.value.daysCovered == |set d | d in covered && from <= d <= to|
    ensures r.Some? ==> (r.value.gap == r.value.gateway - r.value.provider
                         <==> FitsInt64(r.value.gateway - r.value.provider))
  {
    var closed := CloseRows(lines, inputTypes, covered, tolCents, tolBP);
    if OneGatewayLineACell(lines) && NoGatewayCredits(lines) {
      RowsAreJudged(closed, lines, inputTypes, covered, tolCents, tolBP);
      RowsAreMarked(closed, lines, inputTypes, covered, tolCents, tolBP);
      RowsFollowTheAmounts(closed, covered, tolCents, tolBP);
    }
    RowsAreMarked(closed, lines, inputTypes, covered, tolCents, tolBP);
    MetIsAtALine(lines, |lines|);
    var have, missing := CountDays(covered, from, to);
    var order := Enumerate(closed);
    cells, rows := order, closed;
    r := Totalled(order, closed, have, missing);
  }

  // ------------------------------------------------------------ what the totals keep of the lines

  ghost predicate NoCellWraps(lines: seq<Line>, inputTypes: set<string>, f: Figure) {
    forall c :: FitsInt64(InCell(lines, |lines|, c, f, inputTypes))
  }

  lemma {:induction false} MetWhereItLands(lines: seq<Line>, n: nat, i: nat)
    requires i < n <= |lines|
    ensures Met(lines, n, lines[i].At())
  {
    if i < n - 1 {
      MetWhereItLands(lines, n - 1, i);
    }
  }

  /** What the cells together lost to their 64 bits. */
  function Spills(cells: seq<Cell>, n: nat, lines: seq<Line>, f: Figure, inputTypes: set<string>): int
    requires n <= |cells|
  {
    if n == 0 then 0
    else Spills(cells, n - 1, lines, f, inputTypes) + Spill(InCell(lines, |lines|, cells[n - 1], f, inputTypes))
  }

  lemma {:induction false} ColumnIsCells(cells: seq<Cell>, rows: map<Cell, ReconRow>, lines: seq<Line>, f: Figure,
                                         inputTypes: set<string>, n: nat)
    requires n <= |cells| && AllIn(cells, rows)
    requires forall c :: c in rows ==> HoldsCell(rows[c].sides, lines, |lines|, c, inputTypes)
    ensures Total(Column(cells, rows, f), n) + TWO_TO_64 * Spills(cells, n, lines, f, inputTypes)
            == InCells(cells, n, lines, |lines|, f, inputTypes)
  {
    if n > 0 {
      ColumnIsCells(cells, rows, lines, f, inputTypes, n - 1);
      var m := InCell(lines, |lines|, cells[n - 1], f, inputTypes);
      assert Pick(rows[cells[n - 1]].sides, f) == Wrap(m);
      WrapSpills(m);
    }
  }

  /** Which of the two totals of a reconciliation is the total of this figure. */
  function TotalOf(r: Reconciliation, f: Figure): int
    requires f == ProviderMicros || f == GatewayMicros
  {
    if f == ProviderMicros then r.provider else r.gateway
  }

  /** A total that is reported is the whole of its side's lines, less 64 bits for every time a
      cell's own figure left them: no line is lost, none counted twice. */
  lemma MoneyIsConserved(r: Reconciliation, cells: seq<Cell>, lines: seq<Line>, inputTypes: set<string>,
                         covered: set<int>, tolCents: int, tolBP: int, f: Figure)
    requires f == ProviderMicros || f == GatewayMicros
    requires Distinct(cells) && (forall c :: c in cells <==> Met(lines, |lines|, c))
    requires RowsMeant(r.rows, lines, inputTypes, covered, tolCents, tolBP) && TotalsMeant(r, cells)
    ensures TotalOf(r, f) + TWO_TO_64 * Spills(cells, |cells|, lines, f, inputTypes)
            == InAll(lines, |lines|, f, inputTypes)
  {
    forall i | 0 <= i < |lines| ensures lines[i].At() in cells {
      MetWhereItLands(lines, |lines|, i);
    }
    LinesAreConserved(cells, lines, |lines|, f, inputTypes);
    ColumnIsCells(cells, r.rows, lines, f, inputTypes, |cells|);
  }

  lemma {:induction false} NothingSpilled(cells: seq<Cell>, n: nat, lines: seq<Line>, f: Figure,
                                          inputTypes: set<string>)
    requires n <= |cells| && NoCellWraps(lines, inputTypes, f)
    ensures Spills(cells, n, lines, f, inputTypes) == 0
  {
    if n > 0 {
      NothingSpilled(cells, n - 1, lines, f, inputTypes);
      WrapSpills(InCell(lines, |lines|, cells[n - 1], f, inputTypes));
    }
  }

  /** So the gateway's total is always the whole of the gateway's lines. */
  lemma GatewayIsConserved(r: Reconciliation, cells: seq<Cell>, lines: seq<Line>, inputTypes: set<string>,
                           covered: set<int>, tolCents: int, tolBP: int)
    requires OneGatewayLineACell(lines)
    requires Distinct(cells) && (forall c :: c in cells <==> Met(lines, |lines|, c))
    requires RowsMeant(r.rows, lines, inputTypes, covered, tolCents, tolBP) && TotalsMeant(r, cells)
    ensures r.gateway == InAll(lines, |lines|, GatewayMicros, inputTypes)
  {
    forall c ensures FitsInt64(InCell(lines, |lines|, c, GatewayMicros, inputTypes)) {
      NoGatewayCellWraps(lines, |lines|, c, inputTypes);
    }
    NothingSpilled(cells, |cells|, lines, GatewayMicros, inputTypes);
    MoneyIsConserved(r, cells, lines, inputTypes, covered, tolCents, tolBP, GatewayMicros);
  }

  ghost predicate NoCredits(lines: seq<Line>, inputTypes: set<string>) {
    forall i :: 0 <= i < |lines| ==> lines[i].Worth(ProviderMicros, inputTypes) >= 0
  }

  lemma {:induction false} CellIsNoCredit(lines: seq<Line>, n: nat, c: Cell, inputTypes: set<string>)
    requires n <= |lines| && NoCredits(lines, inputTypes)
    ensures InCell(lines, n, c, ProviderMicros, inputTypes) >= 0
    ensures !Met(lines, n, c) ==> InCell(lines, n, c, ProviderMicros, inputTypes) == 0
  {
    if n > 0 {
      CellIsNoCredit(lines, n - 1, c, inputTypes);
    }
  }

  lemma {:induction false} SpilledIff(cells: seq<Cell>, n: nat, lines: seq<Line>, inputTypes: set<string>)
    requires n <= |cells| && NoCredits(lines, inputTypes)
    ensures Spills(cells, n, lines, ProviderMicros, inputTypes) >= 0
    ensures Spills(cells, n, lines, ProviderMicros, inputTypes) == 0 <==>
            forall i :: 0 <= i < n ==> FitsInt64(InCell(lines, |lines|, cells[i], ProviderMicros, inputTypes))
  {
    if n > 0 {
      SpilledIff(cells, n - 1, lines, inputTypes);
      CellIsNoCredit(lines, |lines|, cells[n - 1], inputTypes);
      WrapSpills(InCell(lines, |lines|, cells[n - 1], ProviderMicros, inputTypes));
    }
  }

  /** And the provider's, where it gives no credits, is the whole of the provider's lines if and
      only if each day and model by itself stays within 64 bits. */
  lemma ProviderIsConservedIff(r: Reconciliation, cells: seq<Cell>, lines: seq<Line>, inputTypes: set<string>,
                               covered: set<int>, tolCents: int, tolBP: int)
    requires NoCredits(lines, inputTypes)
    requires Distinct(cells) && (forall c :: c in cells <==> Met(lines, |lines|, c))
    requires RowsMeant(r.rows, lines, inputTypes, covered, tolCents, tolBP) && TotalsMeant(r, cells)
    ensures r.provider == InAll(lines, |lines|, ProviderMicros, inputTypes)
            <==> NoCellWraps(lines, inputTypes, ProviderMicros)
  {
    MoneyIsConserved(r, cells, lines, inputTypes, covered, tolCents, tolBP, ProviderMicros);
    SpilledIff(cells, |cells|, lines, inputTypes);
    forall c | c !in cells ensures FitsInt64(InCell(lines, |lines|, c, ProviderMicros, inputTypes)) {
      CellIsNoCredit(lines, |lines|, c, inputTypes);
    }
  }

  function TwoChargedTypes(): (lines: seq<Line>)
    ensures |lines| == 2
  {
    [FromProvider(ProviderLine("cost", Cell(0, "model"), "uncached_input_tokens", 0, MAX_INT64)),
     FromProvider(ProviderLine("cost", Cell(0, "model"), "output_tokens", 0, MAX_INT64))]
  }

  lemma TwoChargedTypesAddUp(c: Cell, inputTypes: set<string>)
    requires c == Cell(0, "model")
    ensures InAll(TwoChargedTypes(), 2, ProviderMicros, inputTypes) == 2 * MAX_INT64
    ensures InCell(TwoChargedTypes(), 2, c, ProviderMicros, inputTypes) == 2 * MAX_INT64
  {
    var lines := TwoChargedTypes();
    assert InAll(lines, 1, ProviderMicros, inputTypes) == MAX_INT64;
    assert InCell(lines, 1, c, ProviderMicros, inputTypes) == MAX_INT64;
  }

  lemma OneCell(cells: seq<Cell>, c: Cell)
    requires Distinct(cells) && c == Cell(0, "model")
    requires forall d :: d in cells <==> Met(TwoChargedTypes(), 2, d)
    ensures cells == [c]
  {
    assert |cells| > 1 ==> cells[0] != cells[1];
    forall d ensures Met(TwoChargedTypes(), 2, d) <==> d == c {
      assert !Met(TwoChargedTypes(), 0, d);
      assert Met(TwoChargedTypes(), 1, d) <==> d == c;
    }
    assert c in cells;
    forall i | 0 <= i < |cells| ensures cells[i] == c {
      assert cells[i] in cells;
    }
  }

  lemma OneRowIsNotRefused(c: Cell, rows: map<Cell, ReconRow>)
    requires c in rows && FiguresFit(rows)
    ensures !TotalsRefused([c], rows)
  {
    ColumnsFit([c], rows, ProviderMicros);
    ColumnsFit([c], rows, GatewayMicros);
    OneAmountAdds(Column([c], rows, ProviderMicros));
    OneAmountAdds(Column([c], rows, GatewayMicros));
  }

  lemma OneAmountAdds(s: seq<int>)
    requires |s| == 1 && AllFit(s)
    ensures AddAll(s, 1).Some?
  {
    assert AddAll(s, 0) == Some(0);
  }

  /** Two token types of one model on one day, each charged the largest 64-bit amount: their cell
      comes to -2, and that is the total reported, not refused. */
  lemma WrappedCellIsReported(r: Reconciliation, cells: seq<Cell>, inputTypes: set<string>, covered: set<int>,
                              tolCents: int, tolBP: int)
    requires Distinct(cells) && (forall c :: c in cells <==> Met(TwoChargedTypes(), 2, c))
    requires RowsMeant(r.rows, TwoChargedTypes(), inputTypes, covered, tolCents, tolBP) && TotalsMeant(r, cells)
    ensures r.provider == -2 && !TotalsRefused(cells, r.rows)
    ensures InAll(TwoChargedTypes(), 2, ProviderMicros, inputTypes) == 2 * MAX_INT64
  {
    var lines, c := TwoChargedTypes(), Cell(0, "model");
    OneCell(cells, c);
    TwoChargedTypesAddUp(c, inputTypes);
    MoneyIsConserved(r, cells, lines, inputTypes, covered, tolCents, tolBP, ProviderMicros);
    assert Spills(cells, 0, lines, ProviderMicros, inputTypes) == 0;
    forall d, f | d in r.rows ensures FitsInt64(Pick(r.rows[d].sides, f)) {
      assert Pick(r.rows[d].sides, f) == Wrap(InCell(lines, 2, d, f, inputTypes));
    }
    OneRowIsNotRefused(c, r.rows);
  }
}
