/**
 The buffered reader over a cursor. Its logical position is where the cursor would stand
 without the buffer; every operation is proved to do there what the bare cursor does.
 */
module BufReaders {
  import opened Sequences
  import opened Words
  import opened Cursors

  class BufReader {
    const inner: Cursor
    const buf: array<byte>
    var pos: nat
    var cap: nat

    constructor (inner: Cursor, capacity: nat)
      requires inner.Valid() && capacity < I64_LIMIT
      ensures Valid() && this.inner == inner && fresh(buf) && buf.Length == capacity
      ensures Logical() == inner.pos
    {
      this.inner := inner;
      buf := new byte[capacity](_ => 0);
      pos, cap := 0, 0;
    }

    ghost function Data(): seq<byte>
      reads this, inner.inner
    {
      inner.inner[..]
    }

    ghost function Buffered(): seq<byte>
      requires pos <= cap <= buf.Length
      reads this, buf
    {
      buf[pos..cap]
    }

    ghost function Logical(): nat
      requires pos <= cap && cap - pos <= inner.pos
      reads this, inner
    {
      inner.pos - (cap - pos)
    }

    /** What lies ahead of the logical position is the buffer and then what the cursor has left. */
    ghost predicate Valid()
      reads this, inner, inner.inner, buf
    {
      && inner.Valid() && buf != inner.inner && buf.Length < I64_LIMIT
      && pos <= cap <= buf.Length
      && cap - pos <= inner.pos
      && (pos < cap ==> Rest() == Buffered() + From(Data(), inner.pos))
    }

    ghost function Rest(): seq<byte>
      requires pos <= cap && cap - pos <= inner.pos
      reads this, inner, inner.inner
    {
      From(Data(), Logical())
    }

    ghost function Stands(): Stand
      requires pos <= cap && cap - pos <= inner.pos
      reads this, inner
    {
      Stand(Logical(), cap - pos)
    }

    method DiscardBuffer()
      modifies this
      ensures pos == cap == 0
    {
      pos, cap := 0, 0;
    }

    /** Shows what is buffered, after a refill if nothing is. */
    method FillBuf() returns (shown: seq<byte>)
      requires Valid()
      modifies this, inner, buf
      ensures Valid() && Logical() == old(Logical())
      ensures shown == Buffered() && shown <= Rest()
      ensures |shown| == if old(pos < cap) then old(cap - pos) else Min(buf.Length, |Rest()|)
      ensures cap - pos == |shown|
    {
      hide From, Overwritten;
      if pos >= cap {
        ghost var given, start := buf[..], inner.pos;
        cap := inner.Read(buf, 0, buf.Length);
        pos := 0;
        WrittenPart(given, 0, From(Data(), start)[..cap]);
        FromLater(Data(), start, cap);
      }
      shown := buf[pos..cap];
    }

    method Consume(amt: nat)
      requires Valid()
      modifies this
      ensures Valid() && cap == old(cap) && pos == Min(old(pos) + amt, cap)
      ensures Logical() == old(Logical()) + Min(amt, old(cap - pos))
    {
      ghost var rest, buffered, k := Rest(), Buffered(), Min(amt, cap - pos);
      if pos < cap {
        FromLater(Data(), Logical(), k);
        assert rest[k..] == buffered[k..] + From(Data(), inner.pos);
      }
      pos := Min(pos + amt, cap);
      assert Buffered() == buffered[k..];
    }

    /** Reads into `out[lo..hi]`: from the buffer, or past it if it is empty and no larger than asked for. */
    method Read(out: array<byte>, lo: nat, hi: nat) returns (n: nat)
      requires Valid() && lo <= hi <= out.Length && out != buf && out != inner.inner
      modifies this, inner, buf, out
      ensures Valid() && n <= hi - lo && n <= |old(Rest())|
      ensures n == 0 <==> lo == hi || old(Rest()) == []
      ensures n == if old(pos == cap) && hi - lo >= buf.Length then Min(hi - lo, |old(Rest())|)
                   else Min(hi - lo, if old(pos < cap) then old(cap - pos) else Min(buf.Length, |old(Rest())|))
      ensures old(pos < cap) ==> cap - pos == old(cap - pos) - n
      ensures Logical() == old(Logical()) + n && Rest() == old(Rest())[n..]
      ensures out[..] == Overwritten(old(out[..]), lo, old(Rest())[..n])
    {
      hide Overwritten, From;
      ghost var rest, start := Rest(), Logical();
      if pos == cap && hi - lo >= buf.Length {
        DiscardBuffer();
        n := inner.Read(out, lo, hi);
        FromLater(Data(), start, n);
        return;
      }
      var rem := FillBuf();
      n := ReadSlice(rem, out, lo, hi);
      assert rem[..n] == rest[..n];
      Consume(n);
      FromLater(Data(), start, n);
    }

    /**
     Seeks where the bare cursor would from the logical position and leaves the cursor itself
     there, with an empty buffer; an impossible seek moves nothing. A relative offset that
     underflows an i64 when the buffered bytes are taken off is done in two seeks.
     */
    method Seek(style: SeekFrom) returns (r: Result<nat>)
      requires Valid() && Representable(style)
      modifies this, inner
      ensures Valid()
      ensures match SeekTarget(|Data()|, old(Logical()), style)
              case Some(target) => r == Ok(target) && Logical() == inner.pos == target && pos == cap == 0
              case None => r == Err(InvalidInput) && Logical() == old(Logical())
      ensures r.Err? ==>
                cap - pos == if style.Current? && style.delta - old(cap - pos) < -0x8000_0000_0000_0000
                             then 0 else old(cap - pos)
      ensures LandsRight(Data(), old(Logical()), style, r, Logical())
    {
      hide LandsRight, From;
      TargetLandsRight(Data(), Logical(), style);
      if style.Current? {
        var n, remainder := style.delta, cap - pos;
        var offset := CheckedSubI64(n, remainder);
        if offset.Some? {
          r := inner.Seek(Current(offset.value));
          if r.Err? {
            return;
          }
        } else {
          r := inner.Seek(Current(-remainder));
          if r.Err? {
            return;
          }
          DiscardBuffer();
          r := inner.Seek(Current(n));
          if r.Err? {
            return;
          }
        }
      } else {
        r := inner.Seek(style);
        if r.Err? {
          return;
        }
      }
      DiscardBuffer();
    }

    /** The default loop of readers, over short reads. */
    method ReadExact(out: array<byte>) returns (r: Result<()>)
      requires Valid() && out != buf && out != inner.inner
      modifies this, inner, buf, out
      ensures Valid()
      ensures r == if out.Length <= |old(Rest())| then Ok(()) else Err(UnexpectedEof)
      ensures var n := Min(out.Length, |old(Rest())|);
              Logical() == old(Logical()) + n && out[..] == Overwritten(old(out[..]), 0, old(Rest())[..n])
    {
      hide Overwritten, From;
      ghost var rest, start, given := Rest(), Logical(), out[..];
      var filled := 0;
      WrittenPart(given, 0, rest[..0]);
      while filled < out.Length
        invariant Valid() && 0 <= filled <= Min(out.Length, |rest|)
        invariant Logical() == start + filled && Rest() == rest[filled..]
        invariant out[..] == Overwritten(given, 0, rest[..filled])
      {
        ghost var before := out[..];
        var n := Read(out, filled, out.Length);
        if n == 0 {
          assert |rest[filled..]| == |rest| - filled;
          WrittenPart(before, filled, rest[filled..][..0]);
          break;
        }
        FilledInTwo(given, rest, filled, n);
        filled := filled + n;
      }
      r := if filled < out.Length then Err(UnexpectedEof) else Ok(());
    }
  }

  // ---- Any sequence of operations ----

  datatype ReaderOp = Reading(len: nat) | Filling | Consuming(amt: nat) | Seeking(style: SeekFrom)

  datatype Outcome = Bytes(data: seq<byte>) | Position(r: Result<nat>) | Done

  /** Where an unbuffered stream stands, and how many bytes from there on it has shown. */
  datatype Stand = Stand(pos: nat, shown: nat)

  /**
   One operation on an unbuffered stream. Reads may be short, but not empty before the end,
   and deliver first what was shown; a fill shows something before the end, if there is any
   capacity to show it; consuming moves over shown bytes only; seeks are exact.
   */
  ghost predicate StreamStep(data: seq<byte>, capacity: nat, at: Stand, op: ReaderOp, out: Outcome, at': Stand) {
    match op
    case Reading(len) =>
      && out.Bytes? && |out.data| <= len && out.data <= From(data, at.pos) && at'.pos == at.pos + |out.data|
      && (out.data == [] <==> len == 0 || From(data, at.pos) == [])
      && (at.shown > 0 ==> |out.data| == Min(len, at.shown) && at'.shown == at.shown - |out.data|)
    case Filling =>
      && out.Bytes? && out.data <= From(data, at.pos) && (out.data == [] <==> capacity == 0 || From(data, at.pos) == [])
      && at' == Stand(at.pos, |out.data|) && (at.shown > 0 ==> at'.shown == at.shown)
    case Consuming(amt) =>
      out == Done && at' == Stand(at.pos + Min(amt, at.shown), at.shown - Min(amt, at.shown))
    case Seeking(style) =>
      match SeekTarget(|data|, at.pos, style)
      case Some(target) => out == Position(Ok(target)) && at' == Stand(target, 0)
      case None =>
        var twice := style.Current? && style.delta - at.shown < -0x8000_0000_0000_0000;
        out == Position(Err(InvalidInput)) && at' == Stand(at.pos, if twice then 0 else at.shown)
  }

  /** `outs` and the stands passed through are what an unbuffered stream may show for `ops`. */
  ghost predicate Streams(data: seq<byte>, capacity: nat, ops: seq<ReaderOp>, outs: seq<Outcome>, stands: seq<Stand>) {
    && |outs| == |ops| && |stands| == |ops| + 1
    && forall i :: 0 <= i < |ops| ==> StreamStep(data, capacity, stands[i], ops[i], outs[i], stands[i + 1])
  }

  /** What the reads among `ops` delivered, in order. */
  function BytesRead(ops: seq<ReaderOp>, outs: seq<Outcome>): seq<byte>
    requires |ops| == |outs|
  {
    if ops == [] then []
    else
      var n := |ops| - 1;
      BytesRead(ops[..n], outs[..n]) + (if ops[n].Reading? && outs[n].Bytes? then outs[n].data else [])
  }

  /** Without seeks and consumes the reads deliver the bytes from the first position to the last, once and in order. */
  lemma {:induction false} ReadsAreContiguous(data: seq<byte>, capacity: nat, ops: seq<ReaderOp>, outs: seq<Outcome>,
                                              stands: seq<Stand>)
    requires Streams(data, capacity, ops, outs, stands)
    requires forall i :: 0 <= i < |ops| ==> ops[i].Reading? || ops[i].Filling?
    ensures From(data, stands[0].pos) == BytesRead(ops, outs) + From(data, stands[|ops|].pos)
  {
    hide From, StreamStep;
    if ops == [] {
      assert From(data, stands[0].pos) == [] + From(data, stands[0].pos);
    } else {
      var n := |ops| - 1;
      var before := BytesRead(ops[..n], outs[..n]);
      var last := if ops[n].Reading? && outs[n].Bytes? then outs[n].data else [];
      StreamsSoFar(data, capacity, ops, outs, stands);
      ReadsAreContiguous(data, capacity, ops[..n], outs[..n], stands[..n + 1]);
      StepIsContiguous(data, capacity, stands[n], ops[n], outs[n], stands[n + 1]);
      assert before + (last + From(data, stands[n + 1].pos)) == (before + last) + From(data, stands[n + 1].pos);
    }
  }

  lemma StreamsSoFar(data: seq<byte>, capacity: nat, ops: seq<ReaderOp>, outs: seq<Outcome>, stands: seq<Stand>)
    requires Streams(data, capacity, ops, outs, stands) && ops != []
    ensures var n := |ops| - 1;
            && Streams(data, capacity, ops[..n], outs[..n], stands[..n + 1])
            && StreamStep(data, capacity, stands[n], ops[n], outs[n], stands[n + 1])
  {
    hide StreamStep;
  }

  lemma StepIsContiguous(data: seq<byte>, capacity: nat, at: Stand, op: ReaderOp, out: Outcome, at': Stand)
    requires StreamStep(data, capacity, at, op, out, at') && (op.Reading? || op.Filling?)
    ensures From(data, at.pos) == (if op.Reading? && out.Bytes? then out.data else []) + From(data, at'.pos)
  {
    if op.Reading? {
      FromLater(data, at.pos, |out.data|);
    }
  }

  method Perform(reader: BufReader, op: ReaderOp) returns (out: Outcome)
    requires reader.Valid()
    requires op.Seeking? ==> Representable(op.style)
    modifies reader, reader.inner, reader.buf
    ensures reader.Valid()
    ensures StreamStep(reader.Data(), reader.buf.Length, old(reader.Stands()), op, out, reader.Stands())
  {
    match op
    case Reading(len) =>
      var into := new byte[len](_ => 0);
      var n := reader.Read(into, 0, len);
      out := Bytes(into[..n]);
      assert into[..n] == old(reader.Rest())[..n];
    case Filling =>
      var shown := reader.FillBuf();
      out := Bytes(shown);
    case Consuming(amt) =>
      reader.Consume(amt);
      out := Done;
    case Seeking(style) =>
      var r := reader.Seek(style);
      out := Position(r);
  }

  /** Any interleaving of reads, fills, consumes and seeks on the buffered reader is one of an unbuffered stream. */
  method PerformAll(reader: BufReader, ops: seq<ReaderOp>) returns (outs: seq<Outcome>, ghost stands: seq<Stand>)
    requires reader.Valid()
    requires forall i :: 0 <= i < |ops| && ops[i].Seeking? ==> Representable(ops[i].style)
    modifies reader, reader.inner, reader.buf
    ensures reader.Valid()
    ensures Streams(old(reader.Data()), reader.buf.Length, ops, outs, stands)
    ensures stands[0] == old(reader.Stands()) && stands[|ops|] == reader.Stands()
  {
    ghost var data := reader.Data();
    outs, stands := [], [reader.Stands()];
    for k := 0 to |ops|
      invariant reader.Valid() && reader.Data() == data
      invariant Streams(data, reader.buf.Length, ops[..k], outs, stands)
      invariant stands[0] == old(reader.Stands()) && stands[k] == reader.Stands()
    {
      var out := Perform(reader, ops[k]);
      outs, stands := outs + [out], stands + [reader.Stands()];
    }
    assert ops[..|ops|] == ops;
  }
}
