/**
 The buffered reader over any reader, whose refills may be short and may fail: what is ahead
 of it is what its buffer holds and then what is ahead of the inner reader, and a failure
 changes neither.
 */
module BufferedReaders {
  import opened Sequences
  import opened Words
  import opened Cursors
  import opened Readers

  class Buffered {
    const inner: Reader
    const buf: array<byte>
    var pos: nat
    var cap: nat

    constructor (inner: Reader, capacity: nat)
      requires inner.Valid()
      ensures Valid() && this.inner == inner && fresh(buf) && buf.Length == capacity
      ensures Ahead() == inner.Ahead() && Window() == []
    {
      this.inner := inner;
      buf := new byte[capacity](_ => 0);
      pos, cap := 0, 0;
    }

    ghost predicate Valid()
      reads this
    {
      inner.Valid() && this !in inner.Repr() && buf !in inner.Repr() && pos <= cap <= buf.Length
    }

    /** What the buffer holds. */
    ghost function Window(): seq<byte>
      requires Valid()
      reads this, buf
    {
      buf[pos..cap]
    }

    ghost function Ahead(): seq<byte>
      requires Valid()
      reads this, buf, inner.Repr()
    {
      Window() + inner.Ahead()
    }

    lemma EmptyBuffer()
      requires Valid() && pos == cap
      ensures Window() == [] && Ahead() == inner.Ahead()
    {
    }

    ghost predicate TiresInner<T>(kinds: set<ErrorKind>, failures: nat, r: Result<T>)
      requires Valid()
      reads this, inner.Repr()
    {
      Tires(kinds, failures, inner.Kinds(), inner.Failures(), r)
    }

    /** A refill that fails leaves the buffer as it was, which was empty. */
    method FillBuf() returns (r: Result<seq<byte>>)
      requires Valid()
      modifies this, buf, inner.Repr()
      ensures Valid() && Ahead() == old(Ahead())
      ensures r.Ok? ==> r.value == Window() && (r.value == [] <==> buf.Length == 0 || Ahead() == [])
      ensures r.Err? ==> old(Window()) == [] && pos == old(pos) && cap == old(cap) && buf[..] == old(buf[..])
      ensures old(pos < cap) ==> r == Ok(old(Window()))
      ensures TiresInner(old(inner.Kinds()), old(inner.Failures()), r)
    {
      hide Overwritten, Reader.Ahead, Reader.Kinds, Reader.Failures, Reader.Valid;
      if pos >= cap {
        ghost var given, ahead := buf[..], inner.Ahead();
        EmptyBuffer();
        var got := inner.Read(buf, 0, buf.Length);
        if got.Err? {
          return Err(got.kind);
        }
        cap := got.value;
        pos := 0;
        WrittenPart(given, 0, ahead[..cap]);
        Refilled(ahead, cap);
      }
      r := Ok(buf[pos..cap]);
    }

    method Consume(amt: nat)
      requires Valid()
      modifies this
      ensures Valid() && Ahead() == old(Ahead())[Min(amt, old(cap - pos))..]
      ensures Window() == old(Window())[Min(amt, old(cap - pos))..]
    {
      hide Reader.Ahead;
      ghost var window, n := Window(), Min(amt, cap - pos);
      pos := Min(pos + amt, cap);
      assert Window() == window[n..];
      assert (window + inner.Ahead())[n..] == window[n..] + inner.Ahead();
    }

    /** A read that fails, in a refill or past the buffer, delivers nothing and loses nothing. */
    method Read(out: array<byte>, lo: nat, hi: nat) returns (r: Result<nat>)
      requires Valid() && lo <= hi <= out.Length && out != buf && out !in inner.Repr()
      modifies this, buf, inner.Repr(), out
      ensures Valid()
      ensures Delivers(old(Ahead()), Ahead(), r, old(out[..]), lo, hi - lo, out[..])
      ensures old(pos < cap) ==> r == Ok(Min(hi - lo, |old(Window())|)) && |Window()| == |old(Window())| - r.value
      ensures TiresInner(old(inner.Kinds()), old(inner.Failures()), r)
    {
      hide Overwritten, Delivers, Reader.Ahead, Reader.Kinds, Reader.Failures, Reader.Valid;
      ghost var given := out[..];
      if pos == cap && hi - lo >= buf.Length {
        EmptyBuffer();
        pos, cap := 0, 0;
        r := inner.Read(out, lo, hi);
        EmptyBuffer();
        return;
      }
      var rem := FillBuf();
      if rem.Err? {
        FailureDelivers(Ahead(), rem.kind, given, lo, hi - lo);
        return Err(rem.kind);
      }
      var n := ReadSlice(rem.value, out, lo, hi);
      WindowDelivers(Window(), inner.Ahead(), n, given, lo, hi - lo, out[..]);
      Consume(n);
      r := Ok(n);
    }

    /** The default loop of readers, over short reads, interruptions and failures. */
    method ReadExact(out: array<byte>) returns (r: Result<()>, ghost filled: nat)
      requires Valid() && out != buf && out !in inner.Repr()
      modifies this, buf, inner.Repr(), out
      ensures Valid()
      ensures filled <= Min(out.Length, |old(Ahead())|) && Ahead() == old(Ahead())[filled..]
      ensures out[..] == Overwritten(old(out[..]), 0, old(Ahead())[..filled])
      ensures r.Ok? <==> filled == out.Length
      ensures r.Err? ==>
                if r.kind in old(inner.Kinds()) then r.kind != Interrupted
                else r.kind == UnexpectedEof && filled == |old(Ahead())|
      ensures old(inner.Kinds()) <= {Interrupted} ==>
                r == if out.Length <= |old(Ahead())| then Ok(()) else Err(UnexpectedEof)
    {
      hide Overwritten, Reader.Ahead, Reader.Kinds, Reader.Failures, Reader.Valid, Ahead;
      ghost var ahead, given, kinds := Ahead(), out[..], inner.Kinds();
      var next := 0;
      WrittenPart(given, 0, ahead[..0]);
      while next < out.Length
        invariant Valid() && next <= Min(out.Length, |ahead|)
        invariant Ahead() == ahead[next..] && out[..] == Overwritten(given, 0, ahead[..next])
        invariant inner.Kinds() <= kinds
        decreases out.Length - next, inner.Failures()
      {
        ghost var before := out[..];
        var got := Read(out, next, out.Length);
        match got {
          case Ok(0) =>
            NothingDelivered(ahead[next..], Ahead(), before, next, out.Length - next, out[..]);
            break;
          case Ok(n) =>
            FilledInTwo(given, ahead, next, n);
            next := next + n;
          case Err(kind) =>
            if kind != Interrupted {
              return Err(kind), next;
            }
        }
      }
      filled := next;
      r := if next < out.Length then Err(UnexpectedEof) else Ok(());
    }
  }

  lemma Refilled(ahead: seq<byte>, n: nat)
    requires n <= |ahead|
    ensures ahead == ahead[..n] + ahead[n..]
  {
  }

  lemma FailureDelivers(ahead: seq<byte>, kind: ErrorKind, given: seq<byte>, lo: nat, room: nat)
    requires lo + room <= |given|
    ensures Delivers(ahead, ahead, Err(kind), given, lo, room, given)
  {
  }

  /** Copying from the buffer is a read of all that is ahead. */
  lemma WindowDelivers(window: seq<byte>, rest: seq<byte>, n: nat, given: seq<byte>, lo: nat, room: nat, now: seq<byte>)
    requires lo + room <= |given| && n == Min(|window|, room) && now == Overwritten(given, lo, window[..n])
    requires window == [] ==> rest == [] || room == 0
    ensures Delivers(window + rest, (window + rest)[n..], Ok(n), given, lo, room, now)
  {
    assert (window + rest)[..n] == window[..n];
  }
}
