/**
 * The response body that stops at a limit (api/internal/arrclient/base.go).
 *
 * A limited reader is given one byte more than the limit. Taking that last byte is what tells a body
 * that is too large from one that just fits.
 */
module CappedBody {
  import opened Prelude

  newtype int64 = x: int | -0x8000_0000_0000_0000 <= x < 0x8000_0000_0000_0000

  const MAX_INT64: int64 := 0x7fff_ffff_ffff_ffff

  datatype Error = Nil | EOF | Failed | TooLarge

  datatype BadLimit = BadLimit

  /** The limit a client may be built with, and the count its reader starts from. */
  function OptionsCapped(maxBytes: int64): (r: Result<int64, BadLimit>)
    ensures r.Ok? <==> 0 <= maxBytes < MAX_INT64
    ensures r.Ok? ==> r.value as int == maxBytes as int + 1 && r.value > 0
  {
    if maxBytes < 0 || maxBytes == MAX_INT64 then Err(BadLimit) else Ok(maxBytes + 1)
  }

  /** What the base body does at one read: how much it hands over, and whether it reports its end or fails with it. */
  datatype Move = Move(amount: nat, eager: bool, fails: bool)

  /** The base body. The script fixes how it is chunked; it may hand over its last bytes together with the end. */
  class Source {
    const data: seq<bv8>
    const script: nat -> Move
    var pos: nat
    var calls: nat

    constructor (data: seq<bv8>, script: nat -> Move)
      ensures this.data == data && this.script == script && pos == 0 && calls == 0
    {
      this.data, this.script, pos, calls := data, script, 0, 0;
    }

    predicate Valid()
      reads this
    {
      pos <= |data|
    }

    method Read(p: array<bv8>, cap: nat) returns (n: nat, err: Error)
      requires Valid() && cap <= p.Length
      modifies this, p
      ensures Valid() && n <= cap && pos == old(pos) + n && calls == old(calls) + 1
      ensures p[..n] == data[old(pos)..pos] && p[n..] == old(p[n..])
      ensures err != TooLarge && (err == EOF ==> pos == |data|) && (err == Failed <==> script(old(calls)).fails)
      ensures err == Nil && cap > 0 ==> n > 0
    {
      var move := script(calls);
      calls := calls + 1;
      var left := |data| - pos;
      n := Min(cap, Min(left, Max(1, move.amount)));
      for i := 0 to n
        invariant pos == old(pos) && calls == old(calls) + 1
        invariant p[..i] == data[pos..pos + i] && p[n..] == old(p[n..])
      {
        p[i] := data[pos + i];
      }
      pos := pos + n;
      if move.fails {
        err := Failed;
      } else if pos == |data| && (n == 0 || move.eager) {
        err := EOF;
      } else {
        err := Nil;
      }
    }
  }

  class CappedBody {
    const source: Source
    const maxBytes: int64
    var left: int64

    constructor (source: Source, maxBytes: int64)
      requires source.pos == 0 && OptionsCapped(maxBytes).Ok?
      ensures Valid() && this.source == source && this.maxBytes == maxBytes
    {
      this.source, this.maxBytes, left := source, maxBytes, OptionsCapped(maxBytes).value;
    }

    /** What was read and what may still be read make up one byte more than the limit. */
    predicate Valid()
      reads this, source
    {
      && source.Valid()
      && 0 <= left && maxBytes >= 0
      && source.pos + left as int == maxBytes as int + 1
    }

    /** The standard library's limited reader. */
    method LimitedRead(p: array<bv8>) returns (n: nat, err: Error)
      requires Valid()
      modifies this`left, source, p
      ensures Valid() && n <= p.Length
      ensures left as int == old(left) as int - n && source.pos == old(source.pos) + n
      ensures p[..n] == source.data[old(source.pos)..source.pos] && p[n..] == old(p[n..])
      ensures old(left) == 0 ==> err == EOF && source.calls == old(source.calls)
      ensures old(left) > 0 ==> source.calls == old(source.calls) + 1
      ensures old(left) > 0 ==> (err == Failed <==> source.script(old(source.calls)).fails)
      ensures old(left) > 0 && err == EOF ==> source.pos == |source.data|
      ensures err == Nil && p.Length > 0 ==> n > 0
      ensures err != TooLarge
    {
      if left <= 0 {
        return 0, EOF;
      }
      var cap := if p.Length > left as int then left as int else p.Length;
      n, err := source.Read(p, cap);
      left := left - n as int64;
    }

    /**
     * One read hands over the next bytes. It reports the body as too large exactly when the byte after
     * the limit has been taken, now or before; once it did, it always does, and reads no more.
     */
    method Read(p: array<bv8>) returns (n: nat, err: Error)
      requires Valid()
      modifies this`left, source, p
      ensures Valid() && n <= p.Length
      ensures left as int == old(left) as int - n && source.pos == old(source.pos) + n
      ensures p[..n] == source.data[old(source.pos)..source.pos] && p[n..] == old(p[n..])
      ensures err == TooLarge <==> source.pos == maxBytes as int + 1
      ensures old(source.pos) == maxBytes as int + 1 ==> n == 0 && err == TooLarge && source.calls == old(source.calls)
      ensures err == EOF ==> source.pos == |source.data| <= maxBytes as int
      ensures err == Failed ==> source.script(old(source.calls)).fails
      ensures source.script(old(source.calls)).fails && source.calls > old(source.calls) ==>
          err == Failed || err == TooLarge
      ensures err == Nil && p.Length > 0 ==> n > 0
    {
      n, err := LimitedRead(p);
      if left == 0 {
        err := TooLarge;
      }
    }

    /** Reading on to the first error, with buffers of any sizes. */
    method ReadAll(sizes: nat -> nat) returns (got: seq<bv8>, err: Error)
      requires Valid() && source.pos == 0
      requires forall k :: sizes(k) > 0
      modifies this`left, source
      ensures Valid() && err != Nil
      ensures got == source.data[..source.pos]
      ensures err == EOF ==> got == source.data && |source.data| <= maxBytes as int
      ensures err == TooLarge <==> |got| == maxBytes as int + 1
      ensures err == Failed ==> exists k :: source.script(k).fails
      ensures (forall k :: !source.script(k).fails) ==>
                (&& (err == EOF <==> |source.data| <= maxBytes as int)
                 && (err == TooLarge <==> |source.data| > maxBytes as int))
    {
      got, err := [], Nil;
      var k := 0;
      while err == Nil
        invariant Valid()
        invariant got == source.data[..source.pos]
        invariant err == TooLarge <==> source.pos == maxBytes as int + 1
        invariant err == EOF ==> source.pos == |source.data| <= maxBytes as int
        invariant err == Failed ==> exists k :: source.script(k).fails
        decreases left, if err == Nil then 1 else 0
      {
        var p := new bv8[sizes(k)];
        var n;
        n, err := Read(p);
        got := got + p[..n];
        k := k + 1;
      }
    }
  }
}
