/**
 Composable readers of the `core2` patch: `Chain` and `Take` over sources that may deliver
 short and fail, and the provided methods of the `Read` trait.
 */
module Readers {
  import opened Sequences
  import opened Cursors

  type Chunk = n: nat | n > 0 witness 1

  /** What a source does at one read: it delivers no more than so many bytes, or fails. */
  datatype Reply = Deliver(most: Chunk) | Fail(kind: ErrorKind)

  /** What one read of a reader may do to what is ahead of it, and to `buf[lo..lo + room]`. */
  ghost predicate Delivers(ahead: seq<byte>, after: seq<byte>, r: Result<nat>,
                           given: seq<byte>, lo: nat, room: nat, now: seq<byte>)
    requires lo + room <= |given|
  {
    match r
    case Ok(n) =>
      && n <= Min(room, |ahead|) && (n == 0 <==> room == 0 || ahead == [])
      && after == ahead[n..] && now == Overwritten(given, lo, ahead[..n])
    case Err(_) => after == ahead && now == given
  }

  /** What filling the buffer of a reader may show of what is ahead. */
  ghost predicate Shows(ahead: seq<byte>, after: seq<byte>, r: Result<seq<byte>>, shown: nat) {
    && after == ahead
    && (r.Ok? ==> r.value <= ahead && |r.value| == shown && (r.value == [] <==> ahead == []))
  }

  /** Errors are no more and of no other kinds than before, and fewer once one is reported. */
  ghost predicate Tires<T>(kinds: set<ErrorKind>, failures: nat, kinds': set<ErrorKind>, failures': nat, r: Result<T>) {
    && kinds' <= kinds && failures' <= failures
    && (r.Err? ==> r.kind in kinds && failures' < failures)
  }

  /** What the first reader of a chain delivers, the chain delivers. */
  lemma FirstDelivers(a: seq<byte>, a': seq<byte>, b: seq<byte>, r: Result<nat>,
                      given: seq<byte>, lo: nat, room: nat, now: seq<byte>)
    requires lo + room <= |given| && Delivers(a, a', r, given, lo, room, now)
    requires r == Ok(0) ==> room == 0
    ensures Delivers(a + b, a' + b, r, given, lo, room, now)
  {
    if r.Ok? {
      assert (a + b)[..r.value] == a[..r.value];
      assert (a + b)[r.value..] == a[r.value..] + b;
    }
  }

  lemma NothingDelivered(a: seq<byte>, a': seq<byte>, given: seq<byte>, lo: nat, room: nat, now: seq<byte>)
    requires lo + room <= |given| && Delivers(a, a', Ok(0), given, lo, room, now)
    ensures now == given && a' == a && (room > 0 ==> a == [])
  {
    WrittenPart(given, lo, a[..0]);
  }

  lemma NothingToDeliver(a: seq<byte>, given: seq<byte>, lo: nat, room: nat)
    requires lo + room <= |given|
    ensures Delivers(a, a, Ok(0), given, lo, 0, given) && Delivers([], [], Ok(0), given, lo, room, given)
  {
    WrittenPart(given, lo, a[..0]);
    WrittenPart(given, lo, [][..0]);
  }

  function Limited(s: seq<byte>, limit: nat): seq<byte> {
    s[..Min(limit, |s|)]
  }

  function PastLimit(s: seq<byte>, limit: nat): seq<byte> {
    s[Min(limit, |s|)..]
  }

  /** A read cut to the limit delivers what the limited reader should. */
  lemma LimitedDelivers(a: seq<byte>, a': seq<byte>, limit: nat, r: Result<nat>,
                        given: seq<byte>, lo: nat, room: nat, now: seq<byte>)
    requires lo + room <= |given| && Delivers(a, a', r, given, lo, Min(room, limit), now)
    requires limit > 0
    ensures r.Ok? ==> r.value <= limit
    ensures var limit' := if r.Ok? then limit - r.value else limit;
            && Delivers(Limited(a, limit), Limited(a', limit'), r, given, lo, room, now)
            && PastLimit(a', limit') == PastLimit(a, limit)
  {
    if r.Ok? {
      assert Limited(a, limit)[..r.value] == a[..r.value];
    }
  }

  /**
   A source delivers `data` as its script says, and without limit once the script is over.
   `buffered` of the bytes were shown by the last fill.
   */
  class Source {
    var data: seq<byte>
    var script: seq<Reply>
    var buffered: nat

    constructor (data: seq<byte>, script: seq<Reply>)
      ensures this.data == data && this.script == script
    {
      this.data, this.script, buffered := data, script, 0;
    }

    ghost function Shown(): nat
      reads this
    {
      Min(buffered, |data|)
    }

    ghost function Kinds(): set<ErrorKind>
      reads this
    {
      set i | 0 <= i < |script| && script[i].Fail? :: script[i].kind
    }

    method Read(buf: array<byte>, lo: nat, hi: nat) returns (r: Result<nat>)
      requires lo <= hi <= buf.Length
      modifies this, buf
      ensures Delivers(old(data), data, r, old(buf[..]), lo, hi - lo, buf[..])
      ensures old(script) == [] ==> r == Ok(Min(hi - lo, |old(data)|))
      ensures Tires(old(Kinds()), |old(script)|, Kinds(), |script|, r)
    {
      var reply := Next();
      if reply.Fail? {
        return Err(reply.kind);
      }
      var n := ReadSlice(data, buf, lo, lo + Min(hi - lo, reply.most));
      data, buffered := data[n..], 0;
      r := Ok(n);
    }

    method FillBuf() returns (r: Result<seq<byte>>)
      modifies this
      ensures Shows(old(data), data, r, Shown())
      ensures Tires(old(Kinds()), |old(script)|, Kinds(), |script|, r)
    {
      var reply := Next();
      if reply.Fail? {
        return Err(reply.kind);
      }
      buffered := Min(|data|, reply.most);
      r := Ok(data[..buffered]);
    }

    method Consume(amt: nat)
      requires amt <= Shown()
      modifies this
      ensures data == old(data)[amt..] && script == old(script) && Shown() == old(Shown()) - amt
    {
      data, buffered := data[amt..], buffered - amt;
    }

    method Next() returns (reply: Reply)
      modifies this`script
      ensures Kinds() <= old(Kinds()) && |script| <= |old(script)|
      ensures old(script) == [] ==> reply == Deliver(|data| + 1)
      ensures reply.Fail? ==> reply.kind in old(Kinds()) && |script| < |old(script)|
    {
      reply := Deliver(|data| + 1);
      if script != [] {
        reply := script[0];
        script := script[1..];
      }
    }
  }

  /** A reader of any of the three kinds. */
  datatype Reader = OfSource(source: Source) | OfChain(chain: Chain) | OfTake(take: Take)
  {
    ghost function Height(): nat {
      match this
      case OfSource(_) => 0
      case OfChain(chain) => chain.height
      case OfTake(take) => take.height
    }

    ghost function Repr(): set<object> {
      match this
      case OfSource(source) => {source}
      case OfChain(chain) => chain.repr
      case OfTake(take) => take.repr
    }

    ghost predicate Valid()
      decreases Height(), 1
    {
      match this
      case OfSource(_) => true
      case OfChain(chain) => chain.Valid()
      case OfTake(take) => take.Valid()
    }

    /** All that reading to the end would deliver. */
    ghost function Ahead(): seq<byte>
      requires Valid()
      reads Repr()
      decreases Height(), 1
    {
      match this
      case OfSource(source) => source.data
      case OfChain(chain) => chain.Ahead()
      case OfTake(take) => take.Ahead()
    }

    /** What a limit keeps out of reach. */
    ghost function Beyond(): seq<byte>
      requires Valid()
      reads Repr()
    {
      match this
      case OfTake(take) => take.Beyond()
      case _ => []
    }

    /** How many of the bytes ahead the last fill showed. */
    ghost function Shown(): (n: nat)
      requires Valid()
      reads Repr()
      ensures n <= |Ahead()|
      decreases Height(), 1
    {
      match this
      case OfSource(source) => source.Shown()
      case OfChain(chain) => chain.Shown()
      case OfTake(take) => take.Shown()
    }

    /** How much a request to consume `amt` bytes takes: no more than a limit allows. */
    ghost function Taken(amt: nat): (n: nat)
      requires Valid()
      reads Repr()
      ensures n <= amt
      decreases Height(), 1
    {
      match this
      case OfSource(_) => amt
      case OfChain(chain) => chain.Taken(amt)
      case OfTake(take) => take.Taken(amt)
    }

    /** A bound on how often a read can still fail. */
    ghost function Failures(): nat
      requires Valid()
      reads Repr()
      decreases Height(), 1
    {
      match this
      case OfSource(source) => |source.script|
      case OfChain(chain) => chain.Failures()
      case OfTake(take) => take.Failures()
    }

    /** The errors a read can still fail with. */
    ghost function Kinds(): set<ErrorKind>
      requires Valid()
      reads Repr()
      decreases Height(), 1
    {
      match this
      case OfSource(source) => source.Kinds()
      case OfChain(chain) => chain.Kinds()
      case OfTake(take) => take.Kinds()
    }

    method Read(buf: array<byte>, lo: nat, hi: nat) returns (r: Result<nat>)
      requires Valid() && lo <= hi <= buf.Length && buf !in Repr()
      modifies Repr(), buf
      ensures Delivers(old(Ahead()), Ahead(), r, old(buf[..]), lo, hi - lo, buf[..])
      ensures OfSource? && old(source.script) == [] ==> r == Ok(Min(hi - lo, |old(source.data)|))
      ensures Beyond() == old(Beyond())
      ensures Tires(old(Kinds()), old(Failures()), Kinds(), Failures(), r)
      decreases Height(), 1
    {
      hide Delivers;
      match this
      case OfSource(source) => r := source.Read(buf, lo, hi);
      case OfChain(chain) => r := chain.Read(buf, lo, hi);
      case OfTake(take) => r := take.Read(buf, lo, hi);
    }

    method FillBuf() returns (r: Result<seq<byte>>)
      requires Valid()
      modifies Repr()
      ensures Shows(old(Ahead()), Ahead(), r, Shown())
      ensures Beyond() == old(Beyond())
      ensures Tires(old(Kinds()), old(Failures()), Kinds(), Failures(), r)
      decreases Height(), 1
    {
      hide Shows;
      match this
      case OfSource(source) => r := source.FillBuf();
      case OfChain(chain) => r := chain.FillBuf();
      case OfTake(take) => r := take.FillBuf();
    }

    /** What is taken must have been shown. */
    method Consume(amt: nat)
      requires Valid() && Taken(amt) <= Shown()
      modifies Repr()
      ensures Ahead() == old(Ahead())[old(Taken(amt))..] && Shown() == old(Shown()) - old(Taken(amt))
      ensures Beyond() == old(Beyond())
      ensures Kinds() == old(Kinds()) && Failures() == old(Failures())
      decreases Height(), 1
    {
      match this
      case OfSource(source) => source.Consume(amt);
      case OfChain(chain) => chain.Consume(amt);
      case OfTake(take) => take.Consume(amt);
    }
  }

  class Chain {
    const first: Reader
    const second: Reader
    var doneFirst: bool
    ghost const height: nat
    ghost const repr: set<object>

    constructor (first: Reader, second: Reader)
      requires first.Valid() && second.Valid() && first.Repr() !! second.Repr()
      ensures Valid() && this.first == first && this.second == second
      ensures repr == {this} + first.Repr() + second.Repr()
      ensures Ahead() == first.Ahead() + second.Ahead()
      ensures Kinds() == first.Kinds() + second.Kinds()
    {
      this.first, this.second, doneFirst := first, second, false;
      height := first.Height() + second.Height() + 1;
      repr := {this} + first.Repr() + second.Repr();
    }

    ghost predicate Valid()
      decreases height, 0
    {
      && first.Height() < height && second.Height() < height
      && first.Valid() && second.Valid()
      && repr == {this} + first.Repr() + second.Repr()
      && this !in first.Repr() && this !in second.Repr() && first.Repr() !! second.Repr()
    }

    ghost function Ahead(): seq<byte>
      requires Valid()
      reads repr
      decreases height, 0
    {
      if doneFirst then second.Ahead() else first.Ahead() + second.Ahead()
    }

    ghost function Shown(): (n: nat)
      requires Valid()
      reads repr
      ensures n <= |Ahead()|
      decreases height, 0
    {
      if doneFirst then second.Shown() else first.Shown()
    }

    ghost function Taken(amt: nat): (n: nat)
      requires Valid()
      reads repr
      ensures n <= amt
      decreases height, 0
    {
      if doneFirst then second.Taken(amt) else first.Taken(amt)
    }

    ghost function Failures(): nat
      requires Valid()
      reads repr
      decreases height, 0
    {
      if doneFirst then second.Failures() else first.Failures() + second.Failures()
    }

    ghost function Kinds(): set<ErrorKind>
      requires Valid()
      reads repr
      decreases height, 0
    {
      if doneFirst then second.Kinds() else first.Kinds() + second.Kinds()
    }

    /**
     An empty read of the first reader ends it, unless nothing was asked for. Reads are no shorter
     than the reader in turn makes them.
     */
    method Read(buf: array<byte>, lo: nat, hi: nat) returns (r: Result<nat>)
      requires Valid() && lo <= hi <= buf.Length && buf !in repr
      modifies repr, buf
      ensures Delivers(old(Ahead()), Ahead(), r, old(buf[..]), lo, hi - lo, buf[..])
      ensures old(!doneFirst && first.OfSource? && first.source.script == [] && first.source.data != []) ==>
                r == Ok(Min(hi - lo, |old(first.source.data)|))
      ensures old(doneFirst && second.OfSource? && second.source.script == []) ==>
                r == Ok(Min(hi - lo, |old(second.source.data)|))
      ensures Tires(old(Kinds()), old(Failures()), Kinds(), Failures(), r)
      decreases height, 0
    {
      hide Delivers, Reader.Ahead, Reader.Kinds, Reader.Failures;
      ghost var given, a, b := buf[..], first.Ahead(), second.Ahead();
      if !doneFirst {
        r := first.Read(buf, lo, hi);
        if r == Ok(0) && lo < hi {
          NothingDelivered(a, first.Ahead(), given, lo, hi - lo, buf[..]);
          assert a + b == b;
          doneFirst := true;
        } else {
          FirstDelivers(a, first.Ahead(), b, r, given, lo, hi - lo, buf[..]);
          return;
        }
      }
      r := second.Read(buf, lo, hi);
    }

    method FillBuf() returns (r: Result<seq<byte>>)
      requires Valid()
      modifies repr
      ensures Shows(old(Ahead()), Ahead(), r, Shown())
      ensures Tires(old(Kinds()), old(Failures()), Kinds(), Failures(), r)
      decreases height, 0
    {
      ghost var a, b := first.Ahead(), second.Ahead();
      if !doneFirst {
        r := first.FillBuf();
        if r == Ok([]) {
          assert a + b == b;
          doneFirst := true;
        } else {
          return;
        }
      }
      r := second.FillBuf();
    }

    method Consume(amt: nat)
      requires Valid() && Taken(amt) <= Shown()
      modifies repr
      ensures Ahead() == old(Ahead())[old(Taken(amt))..] && Shown() == old(Shown()) - old(Taken(amt))
      ensures Kinds() == old(Kinds()) && Failures() == old(Failures())
      decreases height, 0
    {
      if !doneFirst {
        ghost var n := first.Taken(amt);
        assert (first.Ahead() + second.Ahead())[n..] == first.Ahead()[n..] + second.Ahead();
        first.Consume(amt);
      } else {
        second.Consume(amt);
      }
    }
  }

  class Take {
    const inner: Reader
    var limit: nat
    ghost const height: nat
    ghost const repr: set<object>

    constructor (inner: Reader, limit: nat)
      requires inner.Valid()
      ensures Valid() && this.inner == inner && this.limit == limit && repr == {this} + inner.Repr()
      ensures Ahead() == Limited(inner.Ahead(), limit) && Beyond() == PastLimit(inner.Ahead(), limit)
      ensures Kinds() == inner.Kinds()
    {
      this.inner, this.limit := inner, limit;
      height := inner.Height() + 1;
      repr := {this} + inner.Repr();
    }

    ghost predicate Valid()
      decreases height, 0
    {
      inner.Height() < height && inner.Valid() && repr == {this} + inner.Repr() && this !in inner.Repr()
    }

    ghost function Ahead(): seq<byte>
      requires Valid()
      reads repr
      decreases height, 0
    {
      Limited(inner.Ahead(), limit)
    }

    ghost function Beyond(): seq<byte>
      requires Valid()
      reads repr
    {
      PastLimit(inner.Ahead(), limit)
    }

    ghost function Shown(): (n: nat)
      requires Valid()
      reads repr
      ensures n <= |Ahead()|
      decreases height, 0
    {
      Min(limit, inner.Shown())
    }

    ghost function Taken(amt: nat): (n: nat)
      requires Valid()
      reads repr
      ensures n <= amt
    {
      Min(amt, limit)
    }

    ghost function Failures(): nat
      requires Valid()
      reads repr
      decreases height, 0
    {
      inner.Failures()
    }

    ghost function Kinds(): set<ErrorKind>
      requires Valid()
      reads repr
      decreases height, 0
    {
      inner.Kinds()
    }

    /** At its limit the inner reader is not even asked. Reads are only cut by the limit. */
    method Read(buf: array<byte>, lo: nat, hi: nat) returns (r: Result<nat>)
      requires Valid() && lo <= hi <= buf.Length && buf !in repr
      modifies repr, buf
      ensures Delivers(old(Ahead()), Ahead(), r, old(buf[..]), lo, hi - lo, buf[..])
      ensures inner.OfSource? && old(inner.source.script) == [] ==>
                r == Ok(Min(Min(hi - lo, old(limit)), |old(inner.source.data)|))
      ensures Beyond() == old(Beyond())
      ensures Tires(old(Kinds()), old(Failures()), Kinds(), Failures(), r)
      decreases height, 0
    {
      hide Delivers, Reader.Ahead, Reader.Kinds, Reader.Failures;
      ghost var given, ahead, before := buf[..], inner.Ahead(), limit;
      if limit == 0 {
        NothingToDeliver(ahead, given, lo, hi - lo);
        return Ok(0);
      }
      var max := Min(hi - lo, limit);
      r := inner.Read(buf, lo, lo + max);
      LimitedDelivers(ahead, inner.Ahead(), before, r, given, lo, hi - lo, buf[..]);
      if r.Ok? {
        limit := limit - r.value;
      }
    }

    method FillBuf() returns (r: Result<seq<byte>>)
      requires Valid()
      modifies repr
      ensures Shows(old(Ahead()), Ahead(), r, Shown())
      ensures limit == old(limit) && Beyond() == old(Beyond())
      ensures Tires(old(Kinds()), old(Failures()), Kinds(), Failures(), r)
      decreases height, 0
    {
      if limit == 0 {
        return Ok([]);
      }
      r := inner.FillBuf();
      if r.Ok? {
        r := Ok(r.value[..Min(|r.value|, limit)]);
      }
    }

    /** An overlarge amount is cut to the limit, which no caller can thereby reset. */
    method Consume(amt: nat)
      requires Valid() && Min(amt, limit) <= inner.Shown()
      modifies repr
      ensures Ahead() == old(Ahead())[Min(amt, old(limit))..] && Shown() == old(Shown()) - Min(amt, old(limit))
      ensures limit == old(limit) - Min(amt, old(limit)) && Beyond() == old(Beyond())
      ensures Kinds() == old(Kinds()) && Failures() == old(Failures())
      decreases height, 0
    {
      hide Limited, PastLimit, Reader.Ahead, Reader.Beyond, Reader.Kinds, Reader.Failures, Reader.Shown, Reader.Taken;
      var capped := Min(amt, limit);
      WithinShown(inner, capped);
      ghost var ahead, before := inner.Ahead(), limit;
      limit := limit - capped;
      inner.Consume(capped);
      LimitedConsumed(ahead, before, capped);
    }
  }

  /** An amount that was shown is taken as it is. */
  lemma {:induction false} WithinShown(reader: Reader, amt: nat)
    requires reader.Valid() && amt <= reader.Shown()
    ensures reader.Taken(amt) == amt
    decreases reader.Height()
  {
    match reader
    case OfSource(_) =>
    case OfChain(chain) => WithinShown(if chain.doneFirst then chain.second else chain.first, amt);
    case OfTake(_) =>
  }

  lemma LimitedConsumed(a: seq<byte>, limit: nat, n: nat)
    requires n <= limit && n <= |a|
    ensures Limited(a[n..], limit - n) == Limited(a, limit)[n..]
    ensures PastLimit(a[n..], limit - n) == PastLimit(a, limit)
  {
  }

  // ---- The provided methods of the trait ----

  /**
   Fills `buf` over short reads and interruptions. Whatever the outcome, the bytes taken from
   the reader are the first `filled` ahead of it, and they are in `buf`.
   */
  method ReadExact(reader: Reader, buf: array<byte>) returns (r: Result<()>, ghost filled: nat)
    requires reader.Valid() && buf !in reader.Repr()
    modifies reader.Repr(), buf
    ensures filled <= Min(buf.Length, |old(reader.Ahead())|)
    ensures reader.Ahead() == old(reader.Ahead())[filled..]
    ensures buf[..] == Overwritten(old(buf[..]), 0, old(reader.Ahead())[..filled])
    ensures r.Ok? <==> filled == buf.Length
    ensures r.Err? ==>
              if r.kind in old(reader.Kinds()) then r.kind != Interrupted
              else r.kind == UnexpectedEof && filled == |old(reader.Ahead())|
    ensures old(reader.Kinds()) <= {Interrupted} ==>
              r == if buf.Length <= |old(reader.Ahead())| then Ok(()) else Err(UnexpectedEof)
  {
    hide Overwritten;
    ghost var ahead, given, kinds := reader.Ahead(), buf[..], reader.Kinds();
    var next := 0;
    WrittenPart(given, 0, ahead[..0]);
    while next < buf.Length
      invariant next <= Min(buf.Length, |ahead|)
      invariant reader.Ahead() == ahead[next..] && buf[..] == Overwritten(given, 0, ahead[..next])
      invariant reader.Kinds() <= kinds
      decreases buf.Length - next, reader.Failures()
    {
      ghost var before := buf[..];
      var got := reader.Read(buf, next, buf.Length);
      match got {
        case Ok(0) =>
          NothingDelivered(ahead[next..], reader.Ahead(), before, next, buf.Length - next, buf[..]);
          break;
        case Ok(n) =>
          FilledInTwo(given, ahead, next, n);
          next := next + n;
        case Err(kind) =>
          if kind != Interrupted {
            return Err(kind), next;
          }
      }
    }
    filled := next;
    r := if next < buf.Length then Err(UnexpectedEof) else Ok(());
  }

  /** A growable vector: the first `len` bytes of its allocation. */
  class Vec {
    var store: array<byte>
    var len: nat

    constructor ()
      ensures Valid() && Contents() == [] && fresh(store)
    {
      store, len := new byte[0], 0;
    }

    ghost predicate Valid()
      reads this
    {
      len <= store.Length
    }

    ghost function Contents(): seq<byte>
      requires Valid()
      reads this, store
    {
      store[..len]
    }

    /** The capacity grows to what is asked for or anything beyond. */
    method Reserve(additional: nat)
      requires Valid()
      modifies this`store
      ensures Valid() && store.Length >= len + additional
      ensures Contents() == old(Contents())
      ensures store == old(store) || fresh(store)
      ensures old(store.Length - len) >= additional ==> store == old(store)
    {
      if store.Length - len < additional {
        var capacity :| capacity >= len + additional;
        var grown := new byte[capacity](_ => 0);
        forall i | 0 <= i < len {
          grown[i] := store[i];
        }
        store := grown;
      }
    }
  }

  lemma WrittenAtEnd(given: seq<byte>, len: nat, data: seq<byte>)
    requires len + |data| <= |given|
    ensures Overwritten(given, len, data)[..len + |data|] == given[..len] + data
  {
  }

  function Reservation(reader: Reader): nat
    reads if reader.OfTake? then {reader.take} else {}
  {
    if reader.OfTake? then Min(reader.take.limit, 32) else 32
  }

  lemma NothingToReserve(reader: Reader)
    requires reader.Valid() && Reservation(reader) == 0
    ensures reader.Ahead() == []
  {
  }

  /** When the vector is full it is extended to a new capacity before the next read. */
  method Extend(reader: Reader, vec: Vec, from: nat)
    requires reader.Valid() && vec.Valid() && from <= vec.len
    modifies vec
    ensures vec.Valid() && from <= vec.len && vec.store[..from] == old(vec.store[..from])
    ensures vec.store == old(vec.store) || fresh(vec.store)
    ensures from == vec.len ==> reader.Ahead() == []
    ensures old(vec.len) == from ==>
              vec.len - from >= if reader.OfTake? && reader.take.limit < 32 then reader.take.limit else 32
    ensures old(vec.len) == from && reader.OfTake? && reader.take.limit == 0 ==> vec.store == old(vec.store)
  {
    if from == vec.len {
      var reservation := Reservation(reader);
      if reservation == 0 {
        NothingToReserve(reader);
      }
      vec.Reserve(reservation);
      vec.len := vec.store.Length;
    }
  }

  /** One read into the vector's spare room, which there is, or no room is needed. */
  method ReadMore(reader: Reader, vec: Vec, from: nat) returns (r: Result<nat>, ghost bytes: seq<byte>)
    requires reader.Valid() && vec.Valid() && vec !in reader.Repr() && vec.store !in reader.Repr() && from <= vec.len
    modifies reader.Repr(), vec, vec.store
    ensures vec.Valid() && (vec.store == old(vec.store) || fresh(vec.store))
    ensures old(reader.Ahead()) == bytes + reader.Ahead() && from + |bytes| <= vec.len
    ensures vec.store[..from + |bytes|] == old(vec.store[..from]) + bytes
    ensures if r.Ok? then r.value == |bytes| else bytes == []
    ensures r == Ok(0) ==> reader.Ahead() == []
    ensures reader.Beyond() == old(reader.Beyond())
    ensures Tires(old(reader.Kinds()), old(reader.Failures()), reader.Kinds(), reader.Failures(), r)
  {
    hide Overwritten, Reader.Ahead, Reader.Beyond, Reader.Kinds, Reader.Failures, Reader.Valid;
    Extend(reader, vec, from);
    ghost var given, ahead := vec.store[..], reader.Ahead();
    r := reader.Read(vec.store, from, vec.len);
    bytes := ahead[..if r.Ok? then r.value else 0];
    if r.Ok? {
      WrittenAtEnd(given, from, bytes);
    }
  }

  /**
   Appends everything ahead of the reader; if it fails, exactly what was read until then. While
   it runs the vector's length is its capacity, and the guard's length tells what was read.
   */
  method ReadToEnd(reader: Reader, vec: Vec) returns (r: Result<nat>)
    requires reader.Valid() && vec.Valid() && vec !in reader.Repr() && vec.store !in reader.Repr()
    modifies reader.Repr(), vec, vec.store
    ensures vec.Valid() && (vec.store == old(vec.store) || fresh(vec.store))
    ensures vec.len >= old(vec.len)
    ensures var n := vec.len - old(vec.len);
            && n <= |old(reader.Ahead())|
            && vec.Contents() == old(vec.Contents()) + old(reader.Ahead())[..n]
            && reader.Ahead() == old(reader.Ahead())[n..]
            && (r.Ok? ==> r.value == n == |old(reader.Ahead())|)
    ensures reader.Beyond() == old(reader.Beyond())
    ensures r.Err? ==> r.kind in old(reader.Kinds()) && r.kind != Interrupted
  {
    hide Reader.Ahead, Reader.Beyond, Reader.Kinds, Reader.Failures, Reader.Valid;
    ghost var ahead, before, kinds, taken := reader.Ahead(), vec.Contents(), reader.Kinds(), [];
    var startLen, guardLen := vec.len, vec.len;
    var done := false;
    r := Ok(0);
    while !done
      invariant guardLen == startLen + |taken| && guardLen <= vec.len
      invariant vec.Valid() && vec.store !in reader.Repr() && (vec.store == old(vec.store) || fresh(vec.store))
      invariant vec.store[..guardLen] == before + taken
      invariant ahead == taken + reader.Ahead()
      invariant reader.Kinds() <= kinds && reader.Beyond() == old(reader.Beyond())
      invariant done && r.Ok? ==> r.value == |taken| && reader.Ahead() == []
      invariant done && r.Err? ==> r.kind in kinds && r.kind != Interrupted
      decreases !done, |reader.Ahead()|, reader.Failures()
    {
      var got, bytes := ReadMore(reader, vec, guardLen);
      ReadOn(before, taken, bytes, reader.Ahead());
      taken := taken + bytes;
      match got {
        case Ok(n) =>
          guardLen := guardLen + n;
          if n == 0 {
            r, done := Ok(guardLen - startLen), true;
          }
        case Err(kind) =>
          if kind != Interrupted {
            r, done := Err(kind), true;
          }
      }
    }
    vec.len := guardLen;
  }

  lemma ReadOn(before: seq<byte>, taken: seq<byte>, bytes: seq<byte>, rest: seq<byte>)
    ensures (before + taken) + bytes == before + (taken + bytes)
    ensures taken + (bytes + rest) == (taken + bytes) + rest
  {
  }

  /** One read into a buffer of its own. */
  method ReadBytes(reader: Reader, size: nat) returns (r: Result<nat>, out: seq<byte>)
    requires reader.Valid()
    modifies reader.Repr()
    ensures if r.Ok? then |out| == r.value <= size else out == []
    ensures old(reader.Ahead()) == out + reader.Ahead()
    ensures r.Ok? ==> (out == [] <==> size == 0 || old(reader.Ahead()) == [])
    ensures r.Err? ==> r.kind in old(reader.Kinds())
    ensures reader.Kinds() <= old(reader.Kinds()) && reader.Beyond() == old(reader.Beyond())
  {
    hide Overwritten, Reader.Ahead, Reader.Beyond, Reader.Kinds, Reader.Failures, Reader.Valid;
    var buf := new byte[size](_ => 0);
    ghost var given, ahead := buf[..], reader.Ahead();
    r := reader.Read(buf, 0, size);
    out := if r.Ok? then buf[..r.value] else [];
    if r.Ok? {
      WrittenPart(given, 0, ahead[..r.value]);
    }
  }

  // ---- Any sequence of operations ----

  datatype Request = Reading(size: nat) | Filling | Consuming(amt: nat)

  datatype Effect = Took(data: seq<byte>) | Showed(shown: seq<byte>) | Failed(kind: ErrorKind)

  /** What is ahead of a reader, and how much of that it has shown since the last read or fill. */
  datatype Point = Point(ahead: seq<byte>, window: seq<byte>)

  /**
   One operation. Reads and fills may be short, but not empty before the end, and may fail,
   which changes nothing ahead; consuming takes what was shown, and no more.
   */
  ghost predicate Served(request: Request, at: Point, effect: Effect, at': Point) {
    match request
    case Reading(size) =>
      && at'.window == [] && !effect.Showed?
      && (effect.Failed? ==> at'.ahead == at.ahead)
      && (effect.Took? ==>
            && |effect.data| <= size && at.ahead == effect.data + at'.ahead
            && (effect.data == [] <==> size == 0 || at.ahead == []))
    case Filling =>
      && at'.ahead == at.ahead && !effect.Took?
      && (effect.Failed? ==> at'.window == [])
      && (effect.Showed? ==>
            effect.shown <= at.ahead && at'.window == effect.shown && (effect.shown == [] <==> at.ahead == []))
    case Consuming(amt) =>
      var n := Min(amt, |at.window|);
      && effect == Took(at.window[..n]) && at'.window == at.window[n..]
      && at.ahead == effect.data + at'.ahead
  }

  ghost predicate AllServed(requests: seq<Request>, effects: seq<Effect>, points: seq<Point>) {
    && |effects| == |requests| && |points| == |requests| + 1
    && forall i :: 0 <= i < |requests| ==> Served(requests[i], points[i], effects[i], points[i + 1])
  }

  function TakenBytes(effects: seq<Effect>): seq<byte> {
    if effects == [] then []
    else
      var last := effects[|effects| - 1];
      TakenBytes(effects[..|effects| - 1]) + (if last.Took? then last.data else [])
  }

  /** What the operations took and what is still ahead make up what was ahead: nothing is lost, doubled or reordered. */
  lemma {:induction false} TakenInOrder(requests: seq<Request>, effects: seq<Effect>, points: seq<Point>)
    requires AllServed(requests, effects, points)
    ensures points[0].ahead == TakenBytes(effects) + points[|requests|].ahead
  {
    hide Served;
    if requests == [] {
      assert points[0].ahead == [] + points[0].ahead;
    } else {
      var n := |requests| - 1;
      var before, last := TakenBytes(effects[..n]), if effects[n].Took? then effects[n].data else [];
      TakenInOrder(requests[..n], effects[..n], points[..n + 1]);
      TakenByOne(requests[n], points[n], effects[n], points[n + 1]);
      assert before + (last + points[n + 1].ahead) == (before + last) + points[n + 1].ahead;
    }
  }

  lemma TakenByOne(request: Request, at: Point, effect: Effect, at': Point)
    requires Served(request, at, effect, at')
    ensures at.ahead == (if effect.Took? then effect.data else []) + at'.ahead
  {
  }

  method Serve(reader: Reader, request: Request, window: seq<byte>) returns (effect: Effect, window': seq<byte>)
    requires reader.Valid() && |window| <= reader.Shown() && window <= reader.Ahead()
    modifies reader.Repr()
    ensures |window'| <= reader.Shown() && window' <= reader.Ahead()
    ensures Served(request, Point(old(reader.Ahead()), window), effect, Point(reader.Ahead(), window'))
    ensures effect.Failed? ==> effect.kind in old(reader.Kinds())
    ensures reader.Kinds() <= old(reader.Kinds()) && reader.Beyond() == old(reader.Beyond())
  {
    hide Reader.Ahead, Reader.Beyond, Reader.Kinds, Reader.Failures, Reader.Valid, Reader.Shown, Reader.Taken;
    match request
    case Reading(size) =>
      var r, bytes := ReadBytes(reader, size);
      effect, window' := if r.Ok? then Took(bytes) else Failed(r.kind), [];
    case Filling =>
      var r := reader.FillBuf();
      effect, window' := if r.Ok? then Showed(r.value) else Failed(r.kind), if r.Ok? then r.value else [];
    case Consuming(amt) =>
      var n := Min(amt, |window|);
      ghost var ahead := reader.Ahead();
      WithinShown(reader, n);
      reader.Consume(n);
      effect, window' := Took(window[..n]), window[n..];
      assert window[..n] == ahead[..n];
  }

  /** Any interleaving of reads, fills and consumes, on any reader. */
  method ServeAll(reader: Reader, requests: seq<Request>) returns (effects: seq<Effect>, ghost points: seq<Point>)
    requires reader.Valid()
    modifies reader.Repr()
    ensures AllServed(requests, effects, points)
    ensures points[0] == Point(old(reader.Ahead()), []) && points[|requests|].ahead == reader.Ahead()
    ensures forall i :: 0 <= i < |effects| && effects[i].Failed? ==> effects[i].kind in old(reader.Kinds())
    ensures reader.Kinds() <= old(reader.Kinds()) && reader.Beyond() == old(reader.Beyond())
  {
    hide Served, Reader.Ahead, Reader.Beyond, Reader.Kinds, Reader.Failures, Reader.Valid, Reader.Shown, Reader.Taken;
    var window := [];
    effects, points := [], [Point(reader.Ahead(), [])];
    for k := 0 to |requests|
      invariant |window| <= reader.Shown() && window <= reader.Ahead()
      invariant AllServed(requests[..k], effects, points)
      invariant points[0] == Point(old(reader.Ahead()), []) && points[k] == Point(reader.Ahead(), window)
      invariant forall i :: 0 <= i < k && effects[i].Failed? ==> effects[i].kind in old(reader.Kinds())
      invariant reader.Kinds() <= old(reader.Kinds()) && reader.Beyond() == old(reader.Beyond())
    {
      var effect;
      effect, window := Serve(reader, requests[k], window);
      effects, points := effects + [effect], points + [Point(reader.Ahead(), window)];
    }
    assert requests[..|requests|] == requests;
  }

  /** Any operations, short, interrupted or failing, take what is ahead piece by piece and lose nothing. */
  method Drain(reader: Reader, requests: seq<Request>) returns (effects: seq<Effect>)
    requires reader.Valid()
    modifies reader.Repr()
    ensures |effects| == |requests|
    ensures old(reader.Ahead()) == TakenBytes(effects) + reader.Ahead()
    ensures reader.Kinds() <= old(reader.Kinds()) && reader.Beyond() == old(reader.Beyond())
  {
    hide Reader.Ahead, Reader.Beyond, Reader.Kinds, Reader.Valid, TakenBytes, Served;
    ghost var points;
    effects, points := ServeAll(reader, requests);
    TakenInOrder(requests, effects, points);
  }

  /** The rest in one go. */
  method RestOf(reader: Reader) returns (vec: Vec, r: Result<nat>)
    requires reader.Valid()
    modifies reader.Repr()
    ensures vec.Valid() && fresh(vec)
    ensures old(reader.Ahead()) == vec.Contents() + reader.Ahead()
    ensures r.Ok? ==> reader.Ahead() == []
    ensures old(reader.Kinds()) <= {Interrupted} ==> r.Ok?
    ensures reader.Beyond() == old(reader.Beyond())
  {
    hide Reader.Ahead, Reader.Beyond, Reader.Kinds, Reader.Valid;
    ghost var ahead := reader.Ahead();
    vec := new Vec();
    r := ReadToEnd(reader, vec);
    AppendedAll(ahead, vec.Contents(), reader.Ahead());
  }

  /** Any operations, and then the rest in one go, lose nothing and repeat nothing. */
  method DrainToEnd(reader: Reader, requests: seq<Request>) returns (effects: seq<Effect>, vec: Vec, r: Result<nat>)
    requires reader.Valid()
    modifies reader.Repr()
    ensures |effects| == |requests|
    ensures vec.Valid() && fresh(vec)
    ensures old(reader.Ahead()) == TakenBytes(effects) + (vec.Contents() + reader.Ahead())
    ensures r.Ok? ==> reader.Ahead() == []
    ensures old(reader.Kinds()) <= {Interrupted} ==> r.Ok?
    ensures reader.Beyond() == old(reader.Beyond())
  {
    hide Reader.Ahead, Reader.Beyond, Reader.Kinds, Reader.Valid, TakenBytes;
    effects := Drain(reader, requests);
    vec, r := RestOf(reader);
  }

  lemma AppendedAll(ahead: seq<byte>, contents: seq<byte>, rest: seq<byte>)
    requires |contents| <= |ahead| && contents == [] + ahead[..|contents|] && rest == ahead[|contents|..]
    ensures ahead == contents + rest
  {
  }

  /**
   The first `limit` bytes of `a` followed by `b`: delivered whatever reads, fills and consumes
   were made before reading to the end, and not a byte more is taken from the chain.
   */
  method TakeOfChain(a: Reader, b: Reader, limit: nat, requests: seq<Request>)
      returns (effects: seq<Effect>, vec: Vec, r: Result<nat>, rest: Reader)
    requires a.Valid() && b.Valid() && a.Repr() !! b.Repr()
    modifies a.Repr(), b.Repr()
    ensures vec.Valid() && rest.Valid()
    ensures var all, out := old(a.Ahead()) + old(b.Ahead()), TakenBytes(effects);
            var n := |out| + |vec.Contents()|;
            && n <= Min(limit, |all|)
            && out + vec.Contents() == all[..n]
            && rest.Ahead() == all[n..]
            && (r.Ok? ==> n == Min(limit, |all|))
    ensures old(a.Kinds()) + old(b.Kinds()) <= {Interrupted} ==> r.Ok?
  {
    hide Reader.Ahead, Reader.Beyond, Chain.Ahead, Take.Ahead, Take.Beyond, Limited, PastLimit, TakenBytes;
    ghost var all := a.Ahead() + b.Ahead();
    var chain := new Chain(a, b);
    rest := OfChain(chain);
    ChainAhead(chain);
    var take := new Take(rest, limit);
    TakeAhead(take);
    effects, vec, r := DrainToEnd(OfTake(take), requests);
    TakeAhead(take);
    InTwoParts(all, limit, TakenBytes(effects), vec.Contents(), take.Ahead());
  }

  lemma ChainAhead(chain: Chain)
    requires chain.Valid()
    ensures OfChain(chain).Ahead() == chain.Ahead()
  {
  }

  lemma TakeAhead(take: Take)
    requires take.Valid()
    ensures OfTake(take).Ahead() == take.Ahead() && OfTake(take).Beyond() == take.Beyond()
    ensures take.inner.Ahead() == take.Ahead() + take.Beyond()
  {
  }

  lemma InTwoParts(all: seq<byte>, limit: nat, first: seq<byte>, second: seq<byte>, rest: seq<byte>)
    requires Limited(all, limit) == first + (second + rest)
    ensures var n := |first| + |second|;
            && n <= Min(limit, |all|) && first + second == all[..n]
            && rest + PastLimit(all, limit) == all[n..]
            && (rest == [] ==> n == Min(limit, |all|))
  {
    assert all == Limited(all, limit) + PastLimit(all, limit);
    assert all == (first + second) + (rest + PastLimit(all, limit));
  }
}
