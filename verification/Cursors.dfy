/**
  Reading little-endian fields from a byte string at a moving cursor.

  `Sits` says what lies at a cursor.  A reader that succeeds depends only on the bytes it
  consumed, so it reads the same from every longer byte string.
 */
module Cursors {
  import opened Words

  datatype Parsed<+T> = Bad | Got(value: T, next: nat)

  ghost predicate Sits(data: seq<byte>, at: nat, piece: seq<byte>) {
    at + |piece| <= |data| && data[at..at + |piece|] == piece
  }

  lemma SitsTwo(data: seq<byte>, at: nat, x: seq<byte>, y: seq<byte>)
    ensures Sits(data, at, x + y) <==> Sits(data, at, x) && Sits(data, at + |x|, y)
  {
    var n, m := |x|, |y|;
    if Sits(data, at, x + y) {
      assert data[at..at + n] == (x + y)[..n] && data[at + n..at + n + m] == (x + y)[n..];
    }
    if Sits(data, at, x) && Sits(data, at + n, y) {
      assert data[at..at + (n + m)] == data[at..at + n] + data[at + n..at + n + m];
    }
  }

  lemma SitsWhole(data: seq<byte>, tail: seq<byte>)
    ensures Sits(data + tail, 0, data)
  {
  }

  /** Five adjacent fields. */
  lemma SitsFive(data: seq<byte>, at: nat, v: seq<byte>, w: seq<byte>, x: seq<byte>, y: seq<byte>, z: seq<byte>)
    requires Sits(data, at, v + (w + (x + (y + z))))
    ensures Sits(data, at, v) && Sits(data, at + |v|, w) && Sits(data, at + |v| + |w|, x)
    ensures Sits(data, at + |v| + |w| + |x|, y) && Sits(data, at + |v| + |w| + |x| + |y|, z)
    ensures |v + (w + (x + (y + z)))| == |v| + |w| + |x| + |y| + |z|
  {
    SitsTwo(data, at, v, w + (x + (y + z)));
    SitsTwo(data, at + |v|, w, x + (y + z));
    SitsTwo(data, at + |v| + |w|, x, y + z);
    SitsTwo(data, at + |v| + |w| + |x|, y, z);
  }

  function ReadBytes(data: seq<byte>, at: nat, n: nat): Parsed<seq<byte>> {
    if at + n <= |data| then Got(data[at..at + n], at + n) else Bad
  }

  function ReadU16(data: seq<byte>, at: nat): (r: Parsed<nat>)
    ensures r.Got? ==> r.value < 0x1_0000 && r.next == at + 2 <= |data|
  {
    Widths();
    if at + 2 <= |data| then FromLeBound(data[at..at + 2]); Got(FromLe(data[at..at + 2]), at + 2) else Bad
  }

  function ReadU32(data: seq<byte>, at: nat): (r: Parsed<nat>)
    ensures r.Got? ==> r.value < 0x1_0000_0000 && r.next == at + 4 <= |data|
  {
    Widths();
    if at + 4 <= |data| then FromLeBound(data[at..at + 4]); Got(FromLe(data[at..at + 4]), at + 4) else Bad
  }

  function ReadU64(data: seq<byte>, at: nat): (r: Parsed<u64>)
    ensures r.Got? ==> r.next == at + 8 <= |data|
  {
    Widths();
    if at + 8 <= |data| then FromLeBound(data[at..at + 8]); Got(FromLe(data[at..at + 8]), at + 8) else Bad
  }

  lemma ReadsU16(data: seq<byte>, at: nat, v: nat)
    requires v < 0x1_0000 && Sits(data, at, ToLe(v, 2))
    ensures ReadU16(data, at) == Got(v, at + 2)
  {
    Widths();
    LeRoundTrip(v, 2);
  }

  lemma ReadsU32(data: seq<byte>, at: nat, v: nat)
    requires v < 0x1_0000_0000 && Sits(data, at, ToLe(v, 4))
    ensures ReadU32(data, at) == Got(v, at + 4)
  {
    Widths();
    LeRoundTrip(v, 4);
  }

  lemma ReadsU64(data: seq<byte>, at: nat, v: u64)
    requires Sits(data, at, ToLe(v, 8))
    ensures ReadU64(data, at) == Got(v, at + 8)
  {
    Widths();
    LeRoundTrip(v, 8);
  }

  /** Longer input, same fields. */
  lemma SliceStays(data: seq<byte>, tail: seq<byte>, at: nat, n: nat)
    ensures at + n <= |data| ==> (data + tail)[at..at + n] == data[at..at + n]
    ensures ReadBytes(data, at, n).Got? ==> ReadBytes(data + tail, at, n) == ReadBytes(data, at, n)
  {
  }

  lemma FieldsStay(data: seq<byte>, tail: seq<byte>, at: nat)
    ensures ReadU16(data, at).Got? ==> ReadU16(data + tail, at) == ReadU16(data, at)
    ensures ReadU32(data, at).Got? ==> ReadU32(data + tail, at) == ReadU32(data, at)
    ensures ReadU64(data, at).Got? ==> ReadU64(data + tail, at) == ReadU64(data, at)
  {
    SliceStays(data, tail, at, 2);
    SliceStays(data, tail, at, 4);
    SliceStays(data, tail, at, 8);
  }

  // ---------- repeated fields ----------

  type Reader<!T> = nat -> Parsed<T>

  /** `n` fields one after the other; the first bad one spoils the whole. */
  function ReadMany<T>(read: Reader<T>, at: nat, n: nat): (r: Parsed<seq<T>>)
    ensures r.Got? ==> |r.value| == n
  {
    if n == 0 then Got([], at)
    else
      var front := ReadMany(read, at, n - 1);
      if front.Bad? then Bad
      else
        var last := read(front.next);
        if last.Bad? then Bad else Got(front.value + [last.value], last.next)
  }

  lemma {:induction false} ManyStayBad<T>(read: Reader<T>, at: nat, m: nat, n: nat)
    requires m <= n && ReadMany(read, at, m).Bad?
    ensures ReadMany(read, at, n).Bad?
  {
    if m < n {
      ManyStayBad(read, at, m, n - 1);
    }
  }

  method LoadMany<T>(read: Reader<T>, at: nat, n: nat) returns (r: Parsed<seq<T>>)
    ensures r == ReadMany(read, at, n)
  {
    var values: seq<T>, cursor, i := [], at, 0;
    while i < n
      invariant 0 <= i <= n && ReadMany(read, at, i) == Got(values, cursor)
    {
      var value := read(cursor);
      if value.Bad? {
        ManyStayBad(read, at, i + 1, n);
        return Bad;
      }
      values, cursor, i := values + [value.value], value.next, i + 1;
    }
    r := Got(values, cursor);
  }

  function Join(pieces: seq<seq<byte>>): seq<byte> {
    if pieces == [] then [] else Join(pieces[..|pieces| - 1]) + pieces[|pieces| - 1]
  }

  lemma JoinMore(pieces: seq<seq<byte>>, piece: seq<byte>)
    ensures Join(pieces + [piece]) == Join(pieces) + piece
  {
    assert (pieces + [piece])[..|pieces|] == pieces;
  }

  /** What `read` makes of the bytes `piece`, wherever they lie: `value`, or nothing if not `ok`. */
  ghost predicate ReadsAs<T>(data: seq<byte>, read: Reader<T>, piece: seq<byte>, value: T, ok: bool) {
    forall c: nat :: Sits(data, c, piece) ==> read(c) == if ok then Got(value, c + |piece|) else Bad
  }

  ghost predicate AllTrue(ok: seq<bool>) { forall i :: 0 <= i < |ok| ==> ok[i] }

  lemma {:induction false} ReadsMany<T>(data: seq<byte>, read: Reader<T>, at: nat, pieces: seq<seq<byte>>,
                                        values: seq<T>, ok: seq<bool>)
    requires |pieces| == |values| == |ok| && Sits(data, at, Join(pieces))
    requires forall i :: 0 <= i < |pieces| ==> ReadsAs(data, read, pieces[i], values[i], ok[i])
    ensures ReadMany(read, at, |pieces|) == if !AllTrue(ok) then Bad else Got(values, at + |Join(pieces)|)
  {
    if pieces != [] {
      var n := |pieces| - 1;
      SitsTwo(data, at, Join(pieces[..n]), pieces[n]);
      ReadsMany(data, read, at, pieces[..n], values[..n], ok[..n]);
      assert AllTrue(ok) <==> AllTrue(ok[..n]) && ok[n] by {
        assert forall i :: 0 <= i < n ==> ok[..n][i] == ok[i];
      }
      assert values == values[..n] + [values[n]];
      assert ReadsAs(data, read, pieces[n], values[n], ok[n]);
    }
  }

  /** A reader whose successes do not depend on what follows. */
  ghost predicate Extends<T>(read: Reader<T>, longer: Reader<T>) {
    forall c: nat :: read(c).Got? ==> longer(c) == read(c)
  }

  lemma {:induction false} ManyStay<T>(read: Reader<T>, longer: Reader<T>, at: nat, n: nat)
    requires Extends(read, longer)
    ensures ReadMany(read, at, n).Got? ==> ReadMany(longer, at, n) == ReadMany(read, at, n)
  {
    if n > 0 {
      ManyStay(read, longer, at, n - 1);
    }
  }
}
