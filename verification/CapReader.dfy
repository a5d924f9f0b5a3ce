/**
 The reader that bounds what one file may inflate to.

 It hands on what the stream it wraps delivers, in whatever pieces, and once the limit has
 come out asks the stream for one byte more: if there is one, the answer is a named error
 and never the end of the file.
 */
module CapReader {
  import opened Wrappers

  type Byte = bv8

  datatype Failure = EndOfFile | OverTheLimit | Broken

  /** The wrapped stream.  Each read delivers any number of the bytes asked for that are
      left, none included (stalls bounds how often it may do that); how the stream ends, well
      or not, it says only when every byte is out, with the last bytes or after them. */
  class Source {
    const data: seq<Byte>
    const ending: Failure
    var pos: nat
    var stalls: nat

    ghost predicate Valid()
      reads this
    {
      pos <= |data| && ending != OverTheLimit
    }

    constructor (data: seq<Byte>, ending: Failure, stalls: nat)
      requires ending != OverTheLimit
      ensures Valid() && pos == 0 && this.data == data && this.ending == ending
    {
      this.data, this.ending, this.pos, this.stalls := data, ending, 0, stalls;
    }

    method Read(size: nat) returns (bytes: seq<Byte>, err: Option<Failure>)
      requires Valid() && size > 0
      modifies this
      ensures Valid()
      ensures |bytes| <= size && pos == old(pos) + |bytes| && bytes == data[old(pos)..pos]
      ensures err.Some? ==> err.value == ending && pos == |data|
      ensures bytes == [] && err.None? ==> stalls < old(stalls)
      ensures bytes != [] || err.Some? ==> stalls == old(stalls)
    {
      var n :| 0 <= n <= size && n <= |data| - pos;
      var says: bool := *;
      if n == 0 && pos < |data| && stalls == 0 {
        n := 1;
      }
      bytes := data[pos..pos + n];
      pos := pos + n;
      if pos == |data| && (says || (n == 0 && stalls == 0)) {
        err := Some(ending);
      } else {
        err := None;
        if n == 0 {
          stalls := stalls - 1;
        }
      }
    }
  }

  class Capped {
    const source: Source
    var left: int

    constructor (source: Source, limit: int)
      ensures this.source == source && left == limit
    {
      this.source, this.left := source, limit;
    }

    method Read(size: nat) returns (bytes: seq<Byte>, err: Option<Failure>)
      requires source.Valid() && size > 0
      modifies this, source
      ensures source.Valid()
      // Below the limit: the source's own answer, never more of it than is left.
      ensures old(left) > 0 ==>
                && |bytes| <= size && left == old(left) - |bytes| >= 0
                && source.pos == old(source.pos) + |bytes| && bytes == source.data[old(source.pos)..source.pos]
                && (err.Some? ==> err.value == source.ending && source.pos == |source.data|)
      // At the limit: nothing more, and an error that says whether there was more.
      ensures old(left) <= 0 ==>
                && bytes == [] && left == old(left)
                && (err == Some(OverTheLimit) ==> old(source.pos) < |source.data|)
                && (err.Some? && err != Some(OverTheLimit) ==>
                      err.value == source.ending && old(source.pos) == |source.data|)
                && (err.None? ==> source.pos == old(source.pos))
      ensures bytes == [] && err.None? ==> source.stalls < old(source.stalls)
    {
      if left <= 0 {
        var probe, e := source.Read(1);
        if probe != [] {
          return [], Some(OverTheLimit);
        }
        return [], e;
      }
      bytes, err := source.Read(if size > left then left else size);
      left := left - |bytes|;
    }
  }

  function Max(a: int, b: int): int { if a > b then a else b }

  /** Reads until an error, asking for any number of bytes each time: the stream comes out
      unchanged, with its own ending, when it is no longer than the limit; otherwise exactly
      its first limit bytes come out and then the named error, never an early end. */
  method ReadAll(c: Capped) returns (out: seq<Byte>, err: Failure)
    requires c.source.Valid() && c.source.pos == 0
    modifies c, c.source
    ensures |c.source.data| <= Max(old(c.left), 0) ==> out == c.source.data && err == c.source.ending
    ensures |c.source.data| > Max(old(c.left), 0) ==> out == c.source.data[..Max(old(c.left), 0)] && err == OverTheLimit
  {
    var s := c.source;
    ghost var limit := c.left;
    out := [];
    while true
      invariant s.Valid() && c.source == s
      invariant s.pos == |out| && out == s.data[..s.pos]
      invariant c.left == limit - |out| && (limit > 0 ==> c.left >= 0) && (limit <= 0 ==> out == [])
      decreases |s.data| - s.pos, s.stalls
    {
      var size :| size > 0;
      var bytes, e := c.Read(size);
      out := out + bytes;
      if e.Some? {
        return out, e.value;
      }
    }
  }
}
