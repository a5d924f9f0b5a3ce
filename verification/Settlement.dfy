/**
 Live spend settled into whole cents.

 A task's cost is a number of micro-dollars, its book a number of cents.  All tasks together
 are owed the next whole cent above their joint cost: each the cents its own cost fills, and
 one more those whose fractions are largest, as far as the total goes.  A settlement writes to a
 task what that differs from the cents it carries.
 */
module Settlement {
  import opened Tables
  import opened Sorting

  const CENT: int := 10_000

  datatype Task = Task(spentCents: int, liveMicros: int, liveCents: int, updated: int)

  datatype TaskId = TaskId(number: int)

  /** A task's fraction of a cent. */
  datatype Remainder = Remainder(id: TaskId, r: int)

  /** Larger remainders first, then lower ids. */
  predicate Ahead(a: Remainder, b: Remainder) {
    a.r > b.r || (a.r == b.r && a.id.number < b.id.number)
  }

  lemma AheadOrders(rems: set<Remainder>)
    ensures Orders(Ahead, rems)
  {
  }

  // ------------------------------------------------------------ what each task is given

  /** The tasks that cost anything, with what they cost. */
  function Due(tasks: map<TaskId, Task>): map<TaskId, int> {
    map id | id in tasks && tasks[id].liveMicros > 0 :: tasks[id].liveMicros
  }

  function Wholes(due: map<TaskId, int>): map<TaskId, int> {
    map id | id in due :: due[id] / CENT
  }

  function Fractions(due: map<TaskId, int>): map<TaskId, int> {
    map id | id in due :: due[id] % CENT
  }

  function Remainders(due: map<TaskId, int>): set<Remainder> {
    set id | id in due :: Remainder(id, due[id] % CENT)
  }

  /** The whole bill, up to the next cent. */
  ghost function Want(due: map<TaskId, int>): int {
    (Sum(due) + (CENT - 1)) / CENT
  }

  /** The cents left once every task has its whole ones. */
  ghost function Extra(due: map<TaskId, int>): int {
    Want(due) - Sum(Wholes(due))
  }

  /** How many remainders come before a task's. */
  function Rank(due: map<TaskId, int>, id: TaskId): nat
    requires id in due
  {
    |set x | x in Remainders(due) && Ahead(x, Remainder(id, due[id] % CENT))|
  }

  ghost function Given(due: map<TaskId, int>): map<TaskId, int> {
    map id | id in due :: due[id] / CENT + (if Rank(due, id) < Extra(due) then 1 else 0)
  }

  lemma {:induction false} WholesAndFractions(due: map<TaskId, int>)
    ensures Sum(due) == CENT * Sum(Wholes(due)) + Sum(Fractions(due))
    decreases |due|
  {
    if due == map[] {
      assert Wholes(due) == map[] && Fractions(due) == map[];
    } else {
      var k := Pick(due);
      CountAfterRemoval(due, k);
      WholesAndFractions(due - {k});
      SumRemove(due, k);
      SumRemove(Wholes(due), k);
      SumRemove(Fractions(due), k);
      assert Wholes(due) - {k} == Wholes(due - {k});
      assert Fractions(due) - {k} == Fractions(due - {k});
    }
  }

  function RemSum(rems: seq<Remainder>, n: nat): int
    requires n <= |rems|
  {
    if n == 0 then 0 else RemSum(rems, n - 1) + rems[n - 1].r
  }

  /** The remainders in sorted order are the tasks' remainders. */
  ghost predicate Sorts(rems: seq<Remainder>, due: map<TaskId, int>) {
    Ascending(rems, Ahead) && Elements(rems) == Remainders(due)
  }

  lemma Belongs(rems: seq<Remainder>, due: map<TaskId, int>, i: nat)
    requires Sorts(rems, due) && i < |rems|
    ensures rems[i].id in due && rems[i] == Remainder(rems[i].id, due[rems[i].id] % CENT)
  {
    assert rems[i] in Elements(rems);
  }

  lemma TellsApart(rems: seq<Remainder>, due: map<TaskId, int>, i: nat, j: nat)
    requires Sorts(rems, due) && i < j < |rems|
    ensures rems[i].id != rems[j].id
  {
    Belongs(rems, due, i);
    Belongs(rems, due, j);
  }

  ghost function Taken(rems: seq<Remainder>, n: nat): map<TaskId, int>
    requires n <= |rems|
  {
    if n == 0 then map[] else Taken(rems, n - 1)[rems[n - 1].id := rems[n - 1].r]
  }

  lemma {:induction false} TakenSum(rems: seq<Remainder>, due: map<TaskId, int>, n: nat)
    requires Sorts(rems, due) && n <= |rems|
    ensures Sum(Taken(rems, n)) == RemSum(rems, n)
  {
    if n > 0 {
      TakenSum(rems, due, n - 1);
      NotTakenYet(rems, due, n - 1);
      SumInsert(Taken(rems, n - 1), rems[n - 1].id, rems[n - 1].r);
    }
  }

  /** The tasks taken are those of the first n remainders. */
  lemma {:induction false} TakenIffAmong(rems: seq<Remainder>, n: nat, id: TaskId)
    requires n <= |rems|
    ensures id in Taken(rems, n) <==> exists i :: 0 <= i < n && rems[i].id == id
  {
    if n > 0 {
      TakenIffAmong(rems, n - 1, id);
    }
  }

  lemma NotTakenYet(rems: seq<Remainder>, due: map<TaskId, int>, n: nat)
    requires Sorts(rems, due) && n < |rems|
    ensures rems[n].id !in Taken(rems, n)
  {
    TakenIffAmong(rems, n, rems[n].id);
    forall i | 0 <= i < n ensures rems[i].id != rems[n].id {
      TellsApart(rems, due, i, n);
    }
  }

  lemma {:induction false} TakenAmount(rems: seq<Remainder>, due: map<TaskId, int>, n: nat, id: TaskId)
    requires Sorts(rems, due) && n <= |rems| && id in Taken(rems, n)
    ensures id in due && Taken(rems, n)[id] == due[id] % CENT
  {
    Belongs(rems, due, n - 1);
    if id != rems[n - 1].id {
      TakenAmount(rems, due, n - 1, id);
    }
  }

  lemma SortedSum(rems: seq<Remainder>, due: map<TaskId, int>)
    requires Sorts(rems, due)
    ensures RemSum(rems, |rems|) == Sum(Fractions(due))
  {
    TakenSum(rems, due, |rems|);
    forall id | id in due ensures id in Taken(rems, |rems|) {
      assert Remainder(id, due[id] % CENT) in Elements(rems);
      var i :| 0 <= i < |rems| && rems[i] == Remainder(id, due[id] % CENT);
      TakenIffAmong(rems, |rems|, id);
    }
    forall id | id in Taken(rems, |rems|) ensures id in due && Taken(rems, |rems|)[id] == due[id] % CENT {
      TakenAmount(rems, due, |rems|, id);
    }
    SameRows(Taken(rems, |rems|), Fractions(due));
  }

  lemma {:induction false} SumWithin(rems: seq<Remainder>, due: map<TaskId, int>, n: nat)
    requires Sorts(rems, due) && n <= |rems|
    ensures 0 <= RemSum(rems, n) <= (CENT - 1) * n
  {
    if n > 0 {
      SumWithin(rems, due, n - 1);
      Belongs(rems, due, n - 1);
    }
  }

  lemma {:induction false} NothingBehindNothing(rems: seq<Remainder>, due: map<TaskId, int>, i: nat, n: nat)
    requires Sorts(rems, due) && i <= n <= |rems| && i < |rems| && rems[i].r == 0
    ensures RemSum(rems, n) == RemSum(rems, i)
  {
    if n > i {
      NothingBehindNothing(rems, due, i, n - 1);
      Belongs(rems, due, n - 1);
      assert i < n - 1 ==> Ahead(rems[i], rems[n - 1]);
    }
  }

  /** There are remainders enough for the cents left over, and no task without a fraction of
      a cent is given one. */
  lemma ExtraIsCovered(rems: seq<Remainder>, due: map<TaskId, int>)
    requires Sorts(rems, due)
    ensures 0 <= Extra(due) <= |rems|
    ensures forall i :: 0 <= i < Extra(due) ==> rems[i].r > 0
  {
    WholesAndFractions(due);
    SortedSum(rems, due);
    SumWithin(rems, due, |rems|);
    var s := RemSum(rems, |rems|);
    assert Extra(due) == (s + (CENT - 1)) / CENT;
    forall i | 0 <= i < Extra(due) ensures rems[i].r > 0 {
      Belongs(rems, due, i);
      if rems[i].r == 0 {
        NothingBehindNothing(rems, due, i, |rems|);
        SumWithin(rems, due, i);
      }
    }
  }

  /** The rank of a remainder is its place, whatever sorted it. */
  lemma RankIsPlace(rems: seq<Remainder>, due: map<TaskId, int>, i: nat)
    requires Sorts(rems, due) && i < |rems|
    ensures rems[i].id in due && Rank(due, rems[i].id) == i
  {
    Belongs(rems, due, i);
    var before := set x | x in Remainders(due) && Ahead(x, rems[i]);
    forall x ensures x in before <==> x in rems[..i] {
      if x in before {
        assert x in Elements(rems);
        var j :| 0 <= j < |rems| && rems[j] == x;
        assert j < i;
        assert rems[..i][j] == x;
      }
      if x in rems[..i] {
        var j :| 0 <= j < i && rems[j] == x;
        assert rems[j] in Elements(rems);
      }
    }
    assert before == Elements(rems[..i]);
    AheadOrders(Elements(rems[..i]));
    AscendingSize(rems[..i], Ahead);
  }

  // ------------------------------------------------------------------ the settlement

  lemma OneMoreRemainder(done: map<TaskId, int>, id: TaskId, micros: int)
    requires id !in done
    ensures Remainders(done[id := micros]) == Remainders(done) + {Remainder(id, micros % CENT)}
  {
    var more := done[id := micros];
    forall x ensures x in Remainders(more) <==> x in Remainders(done) + {Remainder(id, micros % CENT)} {
      if x in Remainders(done) {
        assert x.id in more && x == Remainder(x.id, more[x.id] % CENT);
      }
      assert Remainder(id, more[id] % CENT) in Remainders(more);
    }
  }

  method Split(due: map<TaskId, int>) returns (give: map<TaskId, int>, handed: int, rems: set<Remainder>)
    ensures give == Wholes(due) && handed == Sum(give) && rems == Remainders(due)
  {
    give, handed, rems := map[], 0, {};
    var todo := due.Keys;
    ghost var done: map<TaskId, int> := map[];
    while todo != {}
      invariant todo <= due.Keys && done == due - todo
      invariant give == Wholes(done) && handed == Sum(give) && rems == Remainders(done)
    {
      var id := AnyOf(todo);
      SumInsert(give, id, due[id] / CENT);
      OneMoreRemainder(done, id, due[id]);
      give := give[id := due[id] / CENT];
      handed := handed + due[id] / CENT;
      rems := rems + {Remainder(id, due[id] % CENT)};
      done, todo := done[id := due[id]], todo - {id};
    }
    assert done == due;
  }

  /** The first so many remainders have had their cent. */
  ghost predicate HandedTo(give: map<TaskId, int>, due: map<TaskId, int>, rems: seq<Remainder>, n: nat) {
    && give.Keys == due.Keys
    && forall j :: 0 <= j < |rems| ==>
         rems[j].id in due && give[rems[j].id] == due[rems[j].id] / CENT + (if j < n then 1 else 0)
  }

  lemma NothingHandedYet(due: map<TaskId, int>, rems: seq<Remainder>)
    requires Sorts(rems, due)
    ensures HandedTo(Wholes(due), due, rems, 0)
  {
    forall j | 0 <= j < |rems| ensures rems[j].id in due {
      Belongs(rems, due, j);
    }
  }

  lemma OneMoreCent(give: map<TaskId, int>, due: map<TaskId, int>, rems: seq<Remainder>, n: nat)
    requires Sorts(rems, due) && n < |rems| && HandedTo(give, due, rems, n)
    ensures var id := rems[n].id; HandedTo(give[id := give[id] + 1], due, rems, n + 1)
  {
    forall j | 0 <= j < |rems| && j != n ensures rems[j].id != rems[n].id {
      if j < n { TellsApart(rems, due, j, n); } else { TellsApart(rems, due, n, j); }
    }
  }

  lemma AllHandedOut(give: map<TaskId, int>, due: map<TaskId, int>, rems: seq<Remainder>)
    requires Sorts(rems, due) && 0 <= Extra(due) && HandedTo(give, due, rems, Extra(due))
    ensures give == Given(due)
  {
    forall id | id in due ensures give[id] == Given(due)[id] {
      assert Remainder(id, due[id] % CENT) in Elements(rems);
      var j :| 0 <= j < |rems| && rems[j] == Remainder(id, due[id] % CENT);
      RankIsPlace(rems, due, j);
    }
  }

  /** One more cent to each remainder in turn, until the bill is met: the remainders never run
      out first, and each task ends with the floor or the ceiling of its own cost. */
  method HandOut(due: map<TaskId, int>, whole: map<TaskId, int>, wholes: int, rems: seq<Remainder>, want: int)
    returns (give: map<TaskId, int>, handed: int)
    requires Sorts(rems, due) && whole == Wholes(due) && wholes == Sum(whole) && want == Want(due)
    ensures give == Given(due) && handed == Sum(give) == want
    ensures forall id :: id in due ==> due[id] / CENT <= give[id] <= (due[id] + (CENT - 1)) / CENT
  {
    ExtraIsCovered(rems, due);
    NothingHandedYet(due, rems);
    give, handed := whole, wholes;
    var i := 0;
    while handed < want && i < |rems|
      invariant i <= |rems| && i <= Extra(due) && handed == Sum(give) == wholes + i
      invariant HandedTo(give, due, rems, i)
    {
      var id := rems[i].id;
      OneMoreCent(give, due, rems, i);
      SumOfUpdate(give, id, give[id] + 1);
      give, handed := give[id := give[id] + 1], handed + 1;
      i := i + 1;
    }
    AllHandedOut(give, due, rems);
    FloorOrCeiling(give, due, rems, i);
  }

  lemma FloorOrCeiling(give: map<TaskId, int>, due: map<TaskId, int>, rems: seq<Remainder>, n: nat)
    requires Sorts(rems, due) && HandedTo(give, due, rems, n) && n == Extra(due)
    ensures forall id :: id in due ==> due[id] / CENT <= give[id] <= (due[id] + (CENT - 1)) / CENT
  {
    ExtraIsCovered(rems, due);
    forall id | id in due ensures due[id] / CENT <= give[id] <= (due[id] + (CENT - 1)) / CENT {
      assert Remainder(id, due[id] % CENT) in Elements(rems);
      var j :| 0 <= j < |rems| && rems[j] == Remainder(id, due[id] % CENT);
    }
  }

  /** What settling leaves of a task: only the difference is booked, and a task whose cents
      are booked already is not written at all. */
  function Booked(t: Task, cents: int, now: int): Task {
    if cents == t.liveCents then t
    else Task(t.spentCents + (cents - t.liveCents), t.liveMicros, cents, now)
  }

  function BookedAll(tasks: map<TaskId, Task>, give: map<TaskId, int>, now: int): map<TaskId, Task> {
    map id | id in tasks :: if id in give then Booked(tasks[id], give[id], now) else tasks[id]
  }

  ghost function Settled(tasks: map<TaskId, Task>, now: int): map<TaskId, Task> {
    BookedAll(tasks, Given(Due(tasks)), now)
  }

  /** Settling changes neither what a task cost nor the rest of what it spent. */
  lemma OnlyLiveCentsMove(tasks: map<TaskId, Task>, now: int, id: TaskId)
    requires id in tasks
    ensures var t := Settled(tasks, now)[id];
            && t.spentCents - t.liveCents == tasks[id].spentCents - tasks[id].liveCents
            && t.liveMicros == tasks[id].liveMicros
    ensures id in Due(tasks) ==> Settled(tasks, now)[id].liveCents == Given(Due(tasks))[id]
    ensures id !in Due(tasks) ==> Settled(tasks, now)[id] == tasks[id]
  {
  }

  lemma SameDue(tasks: map<TaskId, Task>, now: int)
    ensures Due(Settled(tasks, now)) == Due(tasks)
  {
  }

  /** Settling again books nothing and writes no task, whenever it happens. */
  lemma SettleTwiceIsSettleOnce(tasks: map<TaskId, Task>, now: int, later: int)
    ensures Settled(Settled(tasks, now), later) == Settled(tasks, now)
  {
    SameDue(tasks, now);
  }

  // ------------------------------------------------------------------ what a run is settled to

  /** Every task keeps what it cost and what else it spent; one that cost anything carries the
      floor or the ceiling of its cost in cents, one that did not is left as it was. */
  ghost predicate EachIsBooked(before: map<TaskId, Task>, after: map<TaskId, Task>, now: int) {
    && after.Keys == before.Keys
    && forall id :: id in before ==>
         var was, is_ := before[id], after[id];
         && is_.liveMicros == was.liveMicros
         && is_.spentCents - is_.liveCents == was.spentCents - was.liveCents
         && is_.updated == (if is_.liveCents == was.liveCents then was.updated else now)
         && (was.liveMicros <= 0 ==> is_ == was)
         && (was.liveMicros > 0 ==> was.liveMicros / 10_000 <= is_.liveCents <= (was.liveMicros + 9_999) / 10_000)
  }

  /** A cent beyond the whole ones goes to the larger fraction of a cent, and among equal
      fractions to the lower number: nobody who has it stands behind somebody who has not. */
  ghost predicate LargestFractionsFirst(after: map<TaskId, Task>) {
    forall a, b :: a in after && b in after && GotTheCent(after[a]) && WentWithout(after[b]) ==>
      || after[a].liveMicros % 10_000 > after[b].liveMicros % 10_000
      || (after[a].liveMicros % 10_000 == after[b].liveMicros % 10_000 && a.number < b.number)
  }

  predicate GotTheCent(t: Task) {
    t.liveMicros > 0 && t.liveCents > t.liveMicros / 10_000
  }

  predicate WentWithout(t: Task) {
    t.liveMicros > 0 && t.liveCents == t.liveMicros / 10_000
  }

  /** The cents carried by the tasks that cost anything. */
  ghost function Carried(tasks: map<TaskId, Task>): map<TaskId, int> {
    map id | id in tasks && tasks[id].liveMicros > 0 :: tasks[id].liveCents
  }

  ghost function Cost(tasks: map<TaskId, Task>): map<TaskId, int> {
    map id | id in tasks && tasks[id].liveMicros > 0 :: tasks[id].liveMicros
  }

  /** Whoever stands behind another has the higher rank. */
  lemma BehindRanksHigher(due: map<TaskId, int>, a: TaskId, b: TaskId)
    requires a in due && b in due && Ahead(Remainder(b, due[b] % CENT), Remainder(a, due[a] % CENT))
    ensures Rank(due, b) < Rank(due, a)
  {
    var mine, theirs := Remainder(b, due[b] % CENT), Remainder(a, due[a] % CENT);
    var before := set x | x in Remainders(due) && Ahead(x, mine);
    var behind := set x | x in Remainders(due) && Ahead(x, theirs);
    assert mine in behind && mine !in before;
    SmallerSet(before, behind - {mine});
  }

  lemma {:induction false} SmallerSet<T>(a: set<T>, b: set<T>)
    requires a <= b
    ensures |a| <= |b|
  {
    if a != {} {
      var x :| x in a;
      SmallerSet(a - {x}, b - {x});
    }
  }

  lemma BookedTask(t: Task, cents: int, now: int)
    ensures var b := Booked(t, cents, now);
            && b.liveMicros == t.liveMicros && b.liveCents == cents
            && b.spentCents - b.liveCents == t.spentCents - t.liveCents
            && b.updated == (if b.liveCents == t.liveCents then t.updated else now)
  {
  }

  lemma AllAreBooked(tasks: map<TaskId, Task>, give: map<TaskId, int>, now: int)
    requires give.Keys == Due(tasks).Keys
    requires forall id :: id in give ==> Due(tasks)[id] / CENT <= give[id] <= (Due(tasks)[id] + (CENT - 1)) / CENT
    ensures EachIsBooked(tasks, BookedAll(tasks, give, now), now)
    ensures Carried(BookedAll(tasks, give, now)) == give
  {
    forall id | id in give ensures id in tasks && tasks[id].liveMicros == Due(tasks)[id] > 0 {
      BookedTask(tasks[id], give[id], now);
    }
  }

  lemma AboveItsFloor(due: map<TaskId, int>, a: TaskId, b: TaskId)
    requires a in due && b in due && Given(due)[a] > due[a] / CENT && Given(due)[b] == due[b] / CENT
    ensures due[a] % CENT > due[b] % CENT || (due[a] % CENT == due[b] % CENT && a.number < b.number)
  {
    if Ahead(Remainder(b, due[b] % CENT), Remainder(a, due[a] % CENT)) {
      BehindRanksHigher(due, a, b);
    }
  }

  /** The tasks carry what each was given of its own cost. */
  ghost predicate Carries(after: map<TaskId, Task>, due: map<TaskId, int>, give: map<TaskId, int>) {
    forall id :: id in after && after[id].liveMicros > 0 ==>
      id in due && id in give && after[id].liveMicros == due[id] && after[id].liveCents == give[id]
  }

  lemma BookedCarries(tasks: map<TaskId, Task>, give: map<TaskId, int>, now: int)
    requires give.Keys == Due(tasks).Keys
    ensures Carries(BookedAll(tasks, give, now), Due(tasks), give)
  {
  }

  lemma TheLargestAreGiven(after: map<TaskId, Task>, due: map<TaskId, int>, give: map<TaskId, int>)
    requires Carries(after, due, give) && give == Given(due)
    ensures LargestFractionsFirst(after)
  {
    forall a, b | a in after && b in after && GotTheCent(after[a]) && WentWithout(after[b])
      ensures || after[a].liveMicros % 10_000 > after[b].liveMicros % 10_000
              || (after[a].liveMicros % 10_000 == after[b].liveMicros % 10_000 && a.number < b.number)
    {
      AboveItsFloor(due, a, b);
    }
  }

  /** A whole settlement: each task booked, the odd cents to the largest fractions, and in all the
      run's cost rounded up once. */
  ghost predicate SettlesTheRun(before: map<TaskId, Task>, after: map<TaskId, Task>, booked: int, now: int) {
    && EachIsBooked(before, after, now) && LargestFractionsFirst(after)
    && Sum(Carried(after)) == booked && 0 <= 10_000 * booked - Sum(Cost(before)) < 10_000
  }

  lemma RunIsSettled(tasks: map<TaskId, Task>, give: map<TaskId, int>, now: int)
    requires give == Given(Due(tasks)) && Sum(give) == Want(Due(tasks))
    requires forall id :: id in give ==> Due(tasks)[id] / CENT <= give[id] <= (Due(tasks)[id] + (CENT - 1)) / CENT
    ensures SettlesTheRun(tasks, BookedAll(tasks, give, now), Sum(give), now)
  {
    AllAreBooked(tasks, give, now);
    BookedCarries(tasks, give, now);
    TheLargestAreGiven(BookedAll(tasks, give, now), Due(tasks), give);
    assert Cost(tasks) == Due(tasks);
  }

  class Board {
    var tasks: map<TaskId, Task>

    constructor (tasks: map<TaskId, Task>)
      ensures this.tasks == tasks
    {
      this.tasks := tasks;
    }

    /** Books the run: the tasks that cost anything now carry, in all, exactly the run's cost
        rounded up once to a cent. */
    method SettleLiveSpend(now: int) returns (booked: int)
      modifies this
      ensures tasks == Settled(old(tasks), now)
      ensures booked == Want(Due(old(tasks))) == Sum(Given(Due(old(tasks))))
      ensures forall id :: id in Due(old(tasks)) ==>
                var micros := old(tasks)[id].liveMicros;
                micros / CENT <= tasks[id].liveCents <= (micros + (CENT - 1)) / CENT
      ensures SettlesTheRun(old(tasks), tasks, booked, now)
    {
      var due := Due(tasks);
      var total := Total(due);
      if due == map[] {
        RunIsSettled(tasks, map[], now);
        return 0;
      }
      var want := (total + (CENT - 1)) / CENT;
      var whole, wholes, rems := Split(due);
      AheadOrders(rems);
      var sorted := Sort(rems, Ahead);
      var give, handed := HandOut(due, whole, wholes, sorted, want);
      RunIsSettled(tasks, give, now);
      Book(give, now);
      return handed;
    }

    method Book(give: map<TaskId, int>, now: int)
      requires forall id :: id in give ==> id in tasks
      modifies this
      ensures tasks == BookedAll(old(tasks), give, now)
    {
      var todo := give.Keys;
      while todo != {}
        invariant todo <= give.Keys && tasks.Keys == old(tasks).Keys
        invariant forall id :: id in tasks ==>
                    tasks[id] == (if id in give && id !in todo
                                  then Booked(old(tasks)[id], give[id], now) else old(tasks)[id])
      {
        var id := AnyOf(todo);
        var delta := give[id] - tasks[id].liveCents;
        if delta != 0 {
          var t := tasks[id];
          tasks := tasks[id := Task(t.spentCents + delta, t.liveMicros, give[id], now)];
        }
        todo := todo - {id};
      }
      SameRows(tasks, BookedAll(old(tasks), give, now));
    }
  }

  method Total(due: map<TaskId, int>) returns (total: int)
    ensures total == Sum(due)
  {
    total := 0;
    var todo := due.Keys;
    ghost var done: map<TaskId, int> := map[];
    while todo != {}
      invariant todo <= due.Keys && done == due - todo && total == Sum(done)
    {
      var id := AnyOf(todo);
      SumInsert(done, id, due[id]);
      total := total + due[id];
      done, todo := done[id := due[id]], todo - {id};
    }
    assert done == due;
  }
}
