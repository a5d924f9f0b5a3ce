/** The tally a folder reader keeps of what it refused: every refusal counted, the first few named. */
module Tallies {

  const REFUSALS_SHOWN: nat := 20

  function First(reasons: seq<string>, n: nat): seq<string> {
    if |reasons| <= n then reasons else reasons[..n]
  }

  /** Cutting the second part first loses nothing. */
  lemma FirstOfJoin(a: seq<string>, b: seq<string>, n: nat)
    ensures First(a + First(b, n), n) == First(a + b, n)
  {
  }

  class RefusalTally {
    var count: nat
    var named: seq<string>
    /** Every reason given, in order. */
    ghost var reasons: seq<string>

    ghost predicate Valid()
      reads this
    {
      count == |reasons| && named == First(reasons, REFUSALS_SHOWN)
    }

    constructor ()
      ensures Valid() && reasons == []
    {
      count, named, reasons := 0, [], [];
    }

    method Add(reason: string)
      requires Valid()
      modifies this
      ensures Valid() && reasons == old(reasons) + [reason]
      ensures count == old(count) + 1
      ensures named == if |old(named)| < 20 then old(named) + [reason] else old(named)
    {
      count := count + 1;
      if |named| < REFUSALS_SHOWN {
        named := named + [reason];
      }
      reasons := reasons + [reason];
    }

    /** Folds one file's tally into the import's: the tally of both files read as one. */
    method AddAll(o: RefusalTally)
      requires Valid() && o.Valid()
      modifies this
      ensures Valid() && reasons == old(reasons) + old(o.reasons)
    {
      var theirs := o.named;
      ghost var mine, more := reasons, o.reasons;
      count := count + o.count;
      var i := 0;
      while i < |theirs|
        invariant i <= |theirs|
        invariant named == First(mine + theirs[..i], REFUSALS_SHOWN)
        invariant count == |mine| + |more|
      {
        if |named| >= REFUSALS_SHOWN {
          break;
        }
        named := named + [theirs[i]];
        i := i + 1;
      }
      assert named == First(mine + theirs, REFUSALS_SHOWN) by {
        if i < |theirs| {
          assert (mine + theirs)[..REFUSALS_SHOWN] == (mine + theirs[..i])[..REFUSALS_SHOWN];
        } else {
          assert theirs[..i] == theirs;
        }
      }
      FirstOfJoin(mine, more, REFUSALS_SHOWN);
      reasons := mine + more;
    }
  }
}
