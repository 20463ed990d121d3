/**
  Serving a cached payload: the status line, which requests get a response, and what goes
  over the wire.
 */
module Responses {
  import opened Words
  import opened Payloads

  const SPACE: byte := 32
  const DOT_TERMINATOR: seq<byte> := [46, 13, 10]
  const LINE_BYTES: nat := 1024

  // ---------- decimal numbers ----------

  function Digits(n: nat): (d: seq<byte>)
    ensures |d| >= 1 && forall i :: 0 <= i < |d| ==> 48 <= d[i] <= 57
  {
    if n < 10 then [48 + n] else Digits(n / 10) + [48 + n % 10]
  }

  /** The number a digit string denotes. */
  function Value(d: seq<byte>): nat
    requires forall i :: 0 <= i < |d| ==> 48 <= d[i] <= 57
  {
    if d == [] then 0 else 10 * Value(d[..|d| - 1]) + (d[|d| - 1] - 48)
  }

  lemma {:induction false} ValueOfDigits(n: nat)
    ensures Value(Digits(n)) == n
  {
    var d := Digits(n);
    if n < 10 {
      assert d[..0] == [];
    } else {
      ValueOfDigits(n / 10);
      assert d[..|d| - 1] == Digits(n / 10);
    }
  }

  function Pow10(k: nat): (p: nat)
    ensures p >= 1
  {
    if k == 0 then 1 else 10 * Pow10(k - 1)
  }

  lemma {:induction false} DigitCount(n: nat, k: nat)
    requires k >= 1 && n < Pow10(k)
    ensures |Digits(n)| <= k
  {
    if n >= 10 {
      assert Pow10(k) == 10 * Pow10(k - 1);
      assert k > 1;
      DigitCount(n / 10, k - 1);
    }
  }

  lemma TwentyDigits(n: u64)
    ensures |Digits(n)| <= 20
  {
    assert Pow10(5) == 100000;
    assert Pow10(10) == 10000000000;
    assert Pow10(15) == 1000000000000000;
    assert Pow10(20) == 100000000000000000000;
    DigitCount(n, 20);
  }

  // ---------- the status line ----------

  function StatusLine(code: nat, number: u64, id: seq<byte>): seq<byte> {
    Digits(code) + [SPACE] + Digits(number) + [SPACE] + id + CRLF
  }

  /** A status line being built in a fixed buffer. */
  class StackStatusLine {
    const bytes: array<byte>
    var len: nat

    ghost predicate Valid()
      reads this
    {
      bytes.Length == LINE_BYTES && len <= LINE_BYTES
    }

    ghost function Contents(): seq<byte>
      requires Valid()
      reads this, bytes
    {
      bytes[..len]
    }

    constructor ()
      ensures Valid() && Contents() == [] && fresh(bytes)
    {
      bytes := new byte[LINE_BYTES](_ => 0);
      len := 0;
    }

    /** Appends a part, or changes nothing if it does not fit. */
    method PushSlice(part: seq<byte>) returns (ok: bool)
      requires Valid()
      modifies this, bytes
      ensures Valid() && ok == (old(len) + |part| <= LINE_BYTES)
      ensures Contents() == if ok then old(Contents()) + part else old(Contents())
    {
      var end := len + |part|;
      if end > LINE_BYTES {
        return false;
      }
      ghost var was := bytes[..len];
      var i := 0;
      while i < |part|
        invariant 0 <= i <= |part| && len == old(len)
        invariant bytes[..len] == was && bytes[len..len + i] == part[..i]
      {
        bytes[len + i] := part[i];
        i := i + 1;
      }
      assert bytes[..end] == bytes[..len] + bytes[len..end];
      len := end;
      ok := true;
    }

    /** Appends a number in decimal, built from its last digit in a buffer of twenty. */
    method PushU64(value: u64) returns (ok: bool)
      requires Valid()
      modifies this, bytes
      ensures Valid() && ok == (old(len) + |Digits(value)| <= LINE_BYTES)
      ensures Contents() == if ok then old(Contents()) + Digits(value) else old(Contents())
    {
      TwentyDigits(value);
      var digits := new byte[20](_ => 0);
      var cursor: nat, n: nat := 20, value;
      while true
        invariant cursor <= 20 && len == old(len) && bytes[..] == old(bytes[..])
        invariant Digits(value) == Digits(n) + digits[cursor..] && |Digits(n)| <= cursor
        decreases n
      {
        cursor := cursor - 1;
        ghost var m, tail := n, digits[cursor + 1..];
        digits[cursor] := 48 + n % 10;
        assert digits[cursor..] == [48 + m % 10] + tail;
        n := n / 10;
        if n == 0 {
          break;
        }
      }
      ok := PushSlice(digits[cursor..]);
    }
  }

  /** Builds a whole status line; it exists exactly when it fits the buffer. */
  method BuildLine(code: u64, number: u64, id: seq<byte>) returns (line: Option<seq<byte>>)
    ensures line == if |StatusLine(code, number, id)| <= LINE_BYTES then Some(StatusLine(code, number, id)) else None
  {
    hide Digits;
    var l := new StackStatusLine();
    var ok := l.PushU64(code);
    assert [] + Digits(code) == Digits(code);
    if !ok {
      return None;
    }
    ok := l.PushSlice([SPACE]);
    if !ok {
      return None;
    }
    ok := l.PushU64(number);
    if !ok {
      return None;
    }
    ok := l.PushSlice([SPACE]);
    if !ok {
      return None;
    }
    ok := l.PushSlice(id);
    if !ok {
      return None;
    }
    ok := l.PushSlice(CRLF);
    if !ok {
      return None;
    }
    line := Some(l.bytes[..l.len]);
  }

  // ---------- responses ----------

  /** A response: a status line and the parts after it. */
  datatype Wire =
    | LineOnly(status: nat, line: seq<byte>)
    | ArticleWire(status: nat, line: seq<byte>, headers: seq<byte>, body: seq<byte>)
    | HeadWire(status: nat, line: seq<byte>, headers: seq<byte>)
    | BodyWire(status: nat, line: seq<byte>, body: seq<byte>)

  function NumberOf(p: Payload): u64 {
    if p.Missing? || p.AvailabilityOnly? || p.number.None? then 0 else p.number.value
  }

  function CodeFor(kind: Kind): nat {
    match kind case ArticleKind => 220 case HeadKind => 221 case BodyKind => 222 case StatKind => 223
  }

  method ResponseFor(p: Payload, kind: Kind, id: seq<byte>) returns (w: Option<Wire>)
    ensures w.Some? <==> Answers(p, kind) && |StatusLine(CodeFor(kind), NumberOf(p), id)| <= LINE_BYTES
    ensures w.Some? ==> w.value.status == CodeFor(kind) && w.value.line == StatusLine(CodeFor(kind), NumberOf(p), id)
    ensures w.Some? && kind.ArticleKind? ==>
              w.value.ArticleWire? && w.value.headers == p.headers && w.value.body == p.body
    ensures w.Some? && kind.HeadKind? ==> w.value.HeadWire? && w.value.headers == p.headers
    ensures w.Some? && kind.BodyKind? ==> w.value.BodyWire? && w.value.body == p.body
    ensures w.Some? && kind.StatKind? ==> w.value.LineOnly?
  {
    var number := if p.Missing? || p.AvailabilityOnly? || p.number.None? then 0 else p.number.value;
    var line;
    match (kind, p) {
      case (StatKind, Article(_, _, _)) =>
        line := BuildLine(223, number, id);
        return if line.Some? then Some(LineOnly(223, line.value)) else None;
      case (StatKind, Head(_, _)) =>
        line := BuildLine(223, number, id);
        return if line.Some? then Some(LineOnly(223, line.value)) else None;
      case (StatKind, Body(_, _)) =>
        line := BuildLine(223, number, id);
        return if line.Some? then Some(LineOnly(223, line.value)) else None;
      case (StatKind, Stat(_)) =>
        line := BuildLine(223, number, id);
        return if line.Some? then Some(LineOnly(223, line.value)) else None;
      case (ArticleKind, Article(_, headers, body)) =>
        line := BuildLine(220, number, id);
        return if line.Some? then Some(ArticleWire(220, line.value, headers, body)) else None;
      case (HeadKind, Article(_, headers, _)) =>
        line := BuildLine(221, number, id);
        return if line.Some? then Some(HeadWire(221, line.value, headers)) else None;
      case (HeadKind, Head(_, headers)) =>
        line := BuildLine(221, number, id);
        return if line.Some? then Some(HeadWire(221, line.value, headers)) else None;
      case (BodyKind, Article(_, _, body)) =>
        line := BuildLine(222, number, id);
        return if line.Some? then Some(BodyWire(222, line.value, body)) else None;
      case (BodyKind, Body(_, body)) =>
        line := BuildLine(222, number, id);
        return if line.Some? then Some(BodyWire(222, line.value, body)) else None;
      case _ =>
        return None;
    }
  }

  /** With a message id of at most 997 bytes every status line fits. */
  lemma ShortIdsFit(kind: Kind, number: u64, id: seq<byte>)
    requires |id| <= 997
    ensures |StatusLine(CodeFor(kind), number, id)| <= LINE_BYTES
  {
    TwentyDigits(number);
    assert Pow10(3) == 1000;
    DigitCount(CodeFor(kind), 3);
  }

  /** The limit is sharp: the longest article number and one more byte do not fit. */
  lemma LongIdsDoNot(kind: Kind, id: seq<byte>)
    requires |id| == 998
    ensures |StatusLine(CodeFor(kind), U64_MAX, id)| > LINE_BYTES
  {
    assert Pow10(2) == 100;
    assert Pow10(5) == 100000;
    assert Pow10(10) == 10000000000;
    assert Pow10(15) == 1000000000000000;
    assert Pow10(19) == 10000000000000000000;
    AtLeast(U64_MAX, 20);
    AtLeast(CodeFor(kind), 3);
  }

  lemma {:induction false} AtLeast(n: nat, k: nat)
    requires k >= 1 && n >= Pow10(k - 1)
    ensures |Digits(n)| >= k
  {
    if k > 1 {
      assert Pow10(k - 1) == 10 * Pow10(k - 2);
      AtLeast(n / 10, k - 1);
    }
  }
}
