/** The in-memory cursor of the `core2` patch: reads, seeks and writes over a fixed slice. */
module Cursors {
  import opened Sequences
  import opened Words

  newtype byte = b: int | 0 <= b < 256

  datatype ErrorKind = Interrupted | UnexpectedEof | WriteZero | InvalidInput | OtherError

  datatype Result<+T> = Ok(value: T) | Err(kind: ErrorKind)

  datatype SeekFrom = Start(to: nat) | End(delta: int) | Current(delta: int)

  /** The argument fits its u64 or i64. */
  predicate Representable(style: SeekFrom) {
    match style
    case Start(to) => to < U64
    case End(delta) => I64_MIN <= delta < I64_LIMIT
    case Current(delta) => I64_MIN <= delta < I64_LIMIT
  }

  /** Where a seek goes from `pos` in a slice of `len` bytes: nowhere below zero or beyond a u64. */
  function SeekTarget(len: nat, pos: nat, style: SeekFrom): Option<nat> {
    var target: int := match style
                       case Start(to) => to
                       case End(delta) => len + delta
                       case Current(delta) => pos + delta;
    if 0 <= target < U64 then Some(target) else None
  }

  /** `s` with `data` in place of what it has from `at` on. */
  function Overwritten(s: seq<byte>, at: nat, data: seq<byte>): seq<byte>
    requires at + |data| <= |s|
  {
    s[..at] + data + s[at + |data|..]
  }

  /** What is written is there, and nothing else has changed. */
  lemma WrittenPart(s: seq<byte>, at: nat, data: seq<byte>)
    requires at + |data| <= |s|
    ensures |Overwritten(s, at, data)| == |s|
    ensures Overwritten(s, at, data)[at..at + |data|] == data
    ensures forall i :: 0 <= i < at || at + |data| <= i < |s| ==> Overwritten(s, at, data)[i] == s[i]
    ensures data == [] ==> Overwritten(s, at, data) == s
  {
  }

  lemma OverwrittenInTwo(s: seq<byte>, at: nat, first: seq<byte>, second: seq<byte>)
    requires at + |first| + |second| <= |s|
    ensures Overwritten(Overwritten(s, at, first), at + |first|, second) == Overwritten(s, at, first + second)
  {
    var once := Overwritten(s, at, first);
    assert once[..at + |first|] == s[..at] + first;
    assert once[at + |first| + |second|..] == s[at + |first| + |second|..];
  }

  /** Filling a buffer from a stream in two reads is filling it in one. */
  lemma FilledInTwo(given: seq<byte>, stream: seq<byte>, filled: nat, n: nat)
    requires filled + n <= Min(|given|, |stream|)
    ensures Overwritten(Overwritten(given, 0, stream[..filled]), filled, stream[filled..][..n])
         == Overwritten(given, 0, stream[..filled + n])
    ensures stream[filled..][n..] == stream[filled + n..]
  {
    OverwrittenInTwo(given, 0, stream[..filled], stream[filled..][..n]);
    assert stream[..filled] + stream[filled..][..n] == stream[..filled + n];
  }

  /** The bytes of `data` from `p` on; none if `p` is past the end. */
  function From(data: seq<byte>, p: nat): seq<byte> {
    data[Min(p, |data|)..]
  }

  lemma FromLater(data: seq<byte>, p: nat, k: nat)
    requires k <= |From(data, p)|
    ensures From(data, p + k) == From(data, p)[k..]
    ensures From(data, p) == From(data, p)[..k] + From(data, p + k)
  {
  }

  /**
   What a seek promises: `Start(n)` leads to the bytes from n on, `End(-k)` to the last k bytes,
   and `Current(d)` as far from `p`; it fails exactly if that is no unsigned 64-bit number.
   */
  ghost predicate LandsRight(data: seq<byte>, p: nat, style: SeekFrom, r: Result<nat>, p': nat) {
    && (r.Ok? ==> r.value == p')
    && (r.Err? ==> r.kind == InvalidInput && p' == p)
    && (style.Start? ==> r == Ok(style.to) && (style.to <= |data| ==> From(data, p') == data[style.to..]))
    && (style.End? ==>
          && (r.Ok? <==> 0 <= |data| + style.delta < 0x1_0000_0000_0000_0000)
          && (r.Ok? ==> p' == |data| + style.delta)
          && (-|data| <= style.delta <= 0 ==> From(data, p') == data[|data| + style.delta..]))
    && (style.Current? ==>
          && (r.Ok? <==> 0 <= p + style.delta < 0x1_0000_0000_0000_0000)
          && (r.Ok? ==> p' == p + style.delta))
  }

  lemma TargetLandsRight(data: seq<byte>, p: nat, style: SeekFrom)
    requires Representable(style) && |data| < I64_LIMIT
    ensures match SeekTarget(|data|, p, style)
            case Some(target) => LandsRight(data, p, style, Ok(target), target)
            case None => LandsRight(data, p, style, Err(InvalidInput), p)
  {
  }

  // ---- 64-bit arithmetic as the code does it ----

  function CheckedAdd(a: nat, b: nat): Option<nat> {
    if a + b < U64 then Some(a + b) else None
  }

  function CheckedSub(a: nat, b: nat): Option<nat> {
    if a >= b then Some(a - b) else None
  }

  /** `n.wrapping_neg() as u64` of an i64. */
  function WrappingNegAsU64(n: int): nat
    requires I64_MIN <= n < I64_LIMIT
  {
    var negated: int := if n == I64_MIN then n else -n;
    if negated < 0 then negated + U64 else negated
  }

  /** `n.checked_sub(m)` on i64. */
  function CheckedSubI64(n: int, m: int): Option<int> {
    if I64_MIN <= n - m < I64_LIMIT then Some(n - m) else None
  }

  function Offset(base: nat, offset: int): Option<nat>
    requires I64_MIN <= offset < I64_LIMIT
  {
    if offset >= 0 then CheckedAdd(base, offset) else CheckedSub(base, WrappingNegAsU64(offset))
  }

  /** The unsigned detour computes the signed sum, for the least i64 too. */
  lemma OffsetIsSum(base: nat, offset: int)
    requires base < U64 && I64_MIN <= offset < I64_LIMIT
    ensures Offset(base, offset) == if 0 <= base + offset < U64 then Some(base + offset) else None
  {
    if offset < 0 {
      assert WrappingNegAsU64(offset) == -offset;
    }
  }

  class Cursor {
    const inner: array<byte>
    var pos: nat

    constructor (inner: array<byte>)
      requires inner.Length < I64_LIMIT
      ensures this.inner == inner && pos == 0 && Valid()
    {
      this.inner := inner;
      pos := 0;
    }

    /** The position is a u64 and the slice is no larger than memory allows. */
    ghost predicate Valid()
      reads this
    {
      pos < U64 && inner.Length < I64_LIMIT
    }

    ghost function Rest(): seq<byte>
      reads this, inner
    {
      From(inner[..], pos)
    }

    method Seek(style: SeekFrom) returns (r: Result<nat>)
      requires Valid() && Representable(style)
      modifies this
      ensures Valid()
      ensures match SeekTarget(inner.Length, old(pos), style)
              case Some(target) => r == Ok(target) && pos == target
              case None => r == Err(InvalidInput) && pos == old(pos)
      ensures LandsRight(inner[..], old(pos), style, r, pos)
    {
      hide LandsRight;
      TargetLandsRight(inner[..], pos, style);
      var base: nat, offset: int;
      match style {
        case Start(to) =>
          pos := to;
          return Ok(to);
        case End(delta) => base, offset := inner.Length, delta;
        case Current(delta) => base, offset := pos, delta;
      }
      OffsetIsSum(base, offset);
      var newPos := Offset(base, offset);
      match newPos
      case Some(n) =>
        pos := n;
        r := Ok(pos);
      case None => r := Err(InvalidInput);
    }

    method FillBuf() returns (shown: seq<byte>)
      requires Valid()
      ensures shown == Rest()
    {
      shown := inner[Min(pos, inner.Length)..];
    }

    /** The amount is added unchecked, also one beyond what was shown; the sum wraps at 64 bits. */
    method Consume(amt: nat)
      requires Valid()
      modifies this
      ensures Valid() && pos == (old(pos) + amt) % U64
      ensures old(pos) + amt < U64 ==> Rest() == old(Rest())[Min(amt, |old(Rest())|)..]
    {
      pos := (pos + amt) % U64;
      assert old(pos) + amt < U64 ==> pos == old(pos) + amt;
    }

    /** Reads into `buf[lo..hi]`. */
    method Read(buf: array<byte>, lo: nat, hi: nat) returns (n: nat)
      requires Valid() && lo <= hi <= buf.Length && buf != inner
      modifies this, buf
      ensures Valid() && n == Min(hi - lo, |old(Rest())|)
      ensures pos == old(pos) + n
      ensures buf[..] == Overwritten(old(buf[..]), lo, old(Rest())[..n])
    {
      var shown := FillBuf();
      n := ReadSlice(shown, buf, lo, hi);
      pos := pos + n;
    }

    /** Unlike the loop it overrides, a read that cannot be met touches neither buffer nor position. */
    method ReadExact(buf: array<byte>) returns (r: Result<()>)
      requires Valid() && buf != inner
      modifies this, buf
      ensures Valid()
      ensures r == if buf.Length <= |old(Rest())| then Ok(()) else Err(UnexpectedEof)
      ensures r.Ok? ==> buf[..] == old(Rest())[..buf.Length] && pos == old(pos) + buf.Length
      ensures r.Err? ==> buf[..] == old(buf[..]) && pos == old(pos)
    {
      var shown := FillBuf();
      if buf.Length > |shown| {
        return Err(UnexpectedEof);
      }
      var n := ReadSlice(shown, buf, 0, buf.Length);
      pos := pos + n;
      r := Ok(());
    }

    /** `slice_write`: overwrites as much as fits, and never grows the slice. */
    method Write(data: seq<byte>) returns (n: nat)
      requires Valid()
      modifies this, inner
      ensures Valid() && n == Min(|data|, |old(Rest())|)
      ensures pos == old(pos) + n
      ensures inner[..] == Overwritten(old(inner[..]), Min(old(pos), inner.Length), data[..n])
    {
      var start := Min(pos, inner.Length);
      n := Min(|data|, inner.Length - start);
      forall i | 0 <= i < n {
        inner[start + i] := data[i];
      }
      pos := pos + n;
    }

    /** The default loop: all of `data` is written, or as much as fits and WriteZero. */
    method WriteAll(data: seq<byte>) returns (r: Result<()>)
      requires Valid()
      modifies this, inner
      ensures Valid()
      ensures r == if |data| <= |old(Rest())| then Ok(()) else Err(WriteZero)
      ensures var start, n := Min(old(pos), inner.Length), Min(|data|, |old(Rest())|);
              && pos == old(pos) + n
              && inner[..] == Overwritten(old(inner[..]), start, data[..n])
    {
      hide Overwritten;
      ghost var start, room, before := Min(pos, inner.Length), |Rest()|, inner[..];
      var done := 0;
      WrittenPart(before, start, data[..0]);
      while done < |data|
        invariant 0 <= done <= Min(|data|, room)
        invariant Valid() && pos == old(pos) + done
        invariant inner[..] == Overwritten(before, start, data[..done])
      {
        ghost var soFar := inner[..];
        var n := Write(data[done..]);
        if n == 0 {
          WrittenPart(soFar, start + done, data[done..][..0]);
          return Err(WriteZero);
        }
        OverwrittenInTwo(before, start, data[..done], data[done..][..n]);
        assert data[..done] + data[done..][..n] == data[..done + n];
        done := done + n;
      }
      r := Ok(());
    }
  }

  /** A byte slice as a reader: as much of `data` as fits goes to `buf[lo..hi]`. */
  method ReadSlice(data: seq<byte>, buf: array<byte>, lo: nat, hi: nat) returns (n: nat)
    requires lo <= hi <= buf.Length
    modifies buf
    ensures n == Min(|data|, hi - lo)
    ensures buf[..] == Overwritten(old(buf[..]), lo, data[..n])
  {
    n := Min(|data|, hi - lo);
    forall i | 0 <= i < n {
      buf[lo + i] := data[i];
    }
  }

  /** What is written is what is read back, after seeking back by as much. */
  method WriteThenReadBack(c: Cursor, data: seq<byte>, buf: array<byte>) returns (r: Result<()>)
    requires c.Valid() && |data| <= |c.Rest()| && buf.Length == |data| && buf != c.inner && |data| < I64_LIMIT
    modifies c, c.inner, buf
    ensures r == Ok(()) && buf[..] == data && c.pos == old(c.pos) + |data|
  {
    r := c.WriteAll(data);
    var back := c.Seek(Current(-|data|));
    r := c.ReadExact(buf);
  }
}
