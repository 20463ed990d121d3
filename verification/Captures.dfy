/**
  Taking a response into the cache and serving it again.

  The captured chunks are cut to the payload, an article is split at its first blank line,
  and the parts are put together again when the article is served.
 */
module Captures {
  import opened Words
  import opened Cursors
  import opened Payloads
  import opened Responses

  // ---------- chunks ----------

  /** The bytes from `start` up to `end`, as far as there are any. */
  function Clip(s: seq<byte>, start: nat, end: nat): seq<byte> {
    if end < start then [] else s[Min(start, |s|)..Min(end, |s|)]
  }

  lemma {:induction false} JoinSplit(chunks: seq<seq<byte>>, i: nat)
    requires i <= |chunks|
    ensures |Join(chunks[..i])| <= |Join(chunks)| && Join(chunks)[..|Join(chunks[..i])|] == Join(chunks[..i])
    decreases |chunks|
  {
    if i == |chunks| {
      assert chunks[..i] == chunks;
    } else {
      var n := |chunks| - 1;
      JoinSplit(chunks[..n], i);
      assert chunks[..n][..i] == chunks[..i];
      assert Join(chunks) == Join(chunks[..n]) + chunks[n];
    }
  }

  lemma ClipStep(s: seq<byte>, chunk: seq<byte>, start: nat, end: nat)
    requires start <= end
    ensures Clip(s + chunk, start, end) == Clip(s, start, end) +
            if start < |s| + |chunk| && end > |s| then chunk[SatSub(start, |s|)..Min(end - |s|, |chunk|)] else []
  {
  }

  lemma ClipEnds(s: seq<byte>, all: seq<byte>, start: nat, end: nat)
    requires |s| <= |all| && all[..|s|] == s && end <= |s|
    ensures Clip(all, start, end) == Clip(s, start, end)
  {
  }

  lemma ClipNothing(s: seq<byte>, start: nat, end: nat)
    ensures end < start || s == [] ==> Clip(s, start, end) == []
  {
  }

  /** Copies a range out of a chunked response; how the response is cut into chunks does not matter. */
  method CopyPayloadBytes(chunks: seq<seq<byte>>, start: nat, end: nat) returns (copied: seq<byte>)
    ensures copied == Clip(Join(chunks), start, end)
  {
    hide Clip;
    copied := [];
    ClipNothing(Join(chunks), start, end);
    ClipNothing([], start, end);
    if end < start {
      return;
    }
    var chunkStart, i := 0, 0;
    while i < |chunks|
      invariant 0 <= i <= |chunks| && chunkStart == |Join(chunks[..i])|
      invariant copied == Clip(Join(chunks[..i]), start, end)
    {
      var chunk := chunks[i];
      assert chunks[..i + 1] == chunks[..i] + [chunk];
      JoinMore(chunks[..i], chunk);
      ClipStep(Join(chunks[..i]), chunk, start, end);
      var chunkEnd := chunkStart + |chunk|;
      if start < chunkEnd && end > chunkStart {
        var from := if start > chunkStart then start - chunkStart else 0;
        var to := if end - chunkStart < |chunk| then end - chunkStart else |chunk|;
        copied := copied + chunk[from..to];
      }
      chunkStart := chunkEnd;
      i := i + 1;
      if chunkStart >= end {
        JoinSplit(chunks, i);
        ClipEnds(Join(chunks[..i]), Join(chunks), start, end);
        return;
      }
    }
    assert chunks[..i] == chunks;
  }

  // ---------- sections of an article ----------

  predicate BlankAt(p: seq<byte>, i: nat) { i + 4 <= |p| && p[i..i + 4] == CRLF + CRLF }

  /** The first position, from `from` on, where a blank line follows a line end. */
  function BlankLine(p: seq<byte>, from: nat): (at: Option<nat>)
    ensures at.Some? ==>
              from <= at.value && BlankAt(p, at.value) && forall i: nat :: from <= i < at.value ==> !BlankAt(p, i)
    ensures at.None? ==> forall i: nat :: from <= i ==> !BlankAt(p, i)
    decreases |p| - from
  {
    if from + 4 > |p| then None else if BlankAt(p, from) then Some(from) else BlankLine(p, from + 1)
  }

  predicate StartsBlank(p: seq<byte>) { |p| >= 2 && p[..2] == CRLF }

  /** The payload of a captured response by its status. */
  function PayloadFor(code: nat, number: Number, p: seq<byte>): Payload {
    if code == 220 then
      if StartsBlank(p) then Article(number, [], p[2..])
      else
        var split := BlankLine(p, 0);
        if split.Some? then Article(number, p[..split.value + 2], p[split.value + 4..]) else Article(number, [], p)
    else if code == 221 then Head(number, p)
    else if code == 222 then Body(number, p)
    else if code == 223 then Stat(number)
    else AvailabilityOnly
  }

  // ---------- on the wire ----------

  /** Between headers and body comes a blank line, unless there is neither. */
  function Separator(headers: seq<byte>, body: seq<byte>): seq<byte> {
    if headers == [] && body == [] then [] else CRLF
  }

  /** The bytes after the status line and before the terminator. */
  function Content(w: Wire): seq<byte> {
    match w
    case LineOnly(_, _) => []
    case ArticleWire(_, _, headers, body) => headers + Separator(headers, body) + body
    case HeadWire(_, _, headers) => headers
    case BodyWire(_, _, body) => body
  }

  function WireBytes(w: Wire): seq<byte> {
    if w.LineOnly? then w.line else w.line + Content(w) + DOT_TERMINATOR
  }

  function WireLen(w: Wire): nat {
    |w.line| + match w
               case LineOnly(_, _) => 0
               case ArticleWire(_, _, headers, body) => |headers| + |Separator(headers, body)| + |body| + 3
               case HeadWire(_, _, headers) => |headers| + 3
               case BodyWire(_, _, body) => |body| + 3
  }

  /** The announced length is exact, and everything but a bare status line ends in a line with a single dot. */
  lemma WireLenIsExact(w: Wire)
    ensures WireLen(w) == |WireBytes(w)|
    ensures !w.LineOnly? ==> WireLen(w) >= 3 && WireBytes(w)[WireLen(w) - 3..] == [46, 13, 10]
  {
  }

  function ArticleOf(line: seq<byte>, p: Payload): Wire
    requires p.Article?
  {
    ArticleWire(220, line, p.headers, p.body)
  }

  /** The payloads that can be put together again. */
  predicate Splittable(p: seq<byte>) {
    p == [] || (p != CRLF && (StartsBlank(p) || BlankLine(p, 0).Some?))
  }

  /**
    A served ARTICLE has the bytes that were received exactly when the payload has a blank
    line and is more than that line, or is empty.
   */
  lemma ServedAsReceivedIff(line: seq<byte>, number: Number, p: seq<byte>)
    ensures Content(ArticleOf(line, PayloadFor(220, number, p))) == p <==> Splittable(p)
  {
    if StartsBlank(p) {
      BlankFirst(line, number, p);
    } else if BlankLine(p, 0).Some? {
      BlankLater(line, number, p, BlankLine(p, 0).value);
    } else {
      NoBlank(line, number, p);
    }
  }

  lemma BlankFirst(line: seq<byte>, number: Number, p: seq<byte>)
    requires StartsBlank(p)
    ensures Content(ArticleOf(line, PayloadFor(220, number, p))) == p <==> p != CRLF
  {
    hide BlankLine;
    assert p == CRLF + p[2..];
    assert [] + CRLF + p[2..] == CRLF + p[2..];
  }

  lemma BlankLater(line: seq<byte>, number: Number, p: seq<byte>, split: nat)
    requires !StartsBlank(p) && BlankLine(p, 0) == Some(split)
    ensures Content(ArticleOf(line, PayloadFor(220, number, p))) == p && p != CRLF
  {
    hide BlankLine;
    assert BlankAt(p, split);
    Rejoin(p, split);
  }

  lemma Rejoin(p: seq<byte>, split: nat)
    requires BlankAt(p, split)
    ensures p[..split + 2] + CRLF + p[split + 4..] == p
  {
    assert p[split + 2..split + 4] == p[split..split + 4][2..];
  }

  lemma NoBlank(line: seq<byte>, number: Number, p: seq<byte>)
    requires !StartsBlank(p) && BlankLine(p, 0).None?
    ensures Content(ArticleOf(line, PayloadFor(220, number, p))) == p <==> p == []
  {
    var content := Content(ArticleOf(line, PayloadFor(220, number, p)));
    assert p != [] ==> |content| == |p| + 2;
  }

  /**
    Taking in again what a cache served gives the payload it was served from, also where
    the served bytes differ from those received.
   */
  lemma ServedAgain(line: seq<byte>, number: Number, p: seq<byte>)
    ensures PayloadFor(220, number, Content(ArticleOf(line, PayloadFor(220, number, p)))) == PayloadFor(220, number, p)
  {
    hide BlankLine;
    ServedAsReceivedIff(line, number, p);
    if !Splittable(p) && p != CRLF {
      var content := Content(ArticleOf(line, PayloadFor(220, number, p)));
      assert content == CRLF + p && content[2..] == p;
    }
  }

  // ---------- the article number ----------

  predicate AllDigits(d: seq<byte>) { forall i :: 0 <= i < |d| ==> 48 <= d[i] <= 57 }

  /** A decimal u64, with an optional plus sign. */
  function ParseU64(text: seq<byte>): Number {
    var d := if text != [] && text[0] == 43 then text[1..] else text;
    if d == [] || !AllDigits(d) || Value(d) > U64_MAX then None else Some(Value(d))
  }

  /** A text denotes a number exactly when it is a string of digits, with or without a plus sign, that fits a word. */
  lemma ParsesIff(text: seq<byte>, n: u64)
    ensures ParseU64(text) == Some(n) <==>
            exists d :: (text == d || text == [43] + d) && d != [] && AllDigits(d) && Value(d) == n
  {
    var d := if text != [] && text[0] == 43 then text[1..] else text;
    assert text == d || text == [43] + d;
    forall e | (text == e || text == [43] + e) && e != [] && AllDigits(e)
      ensures e == d
    {
      assert e[0] != 43;
    }
  }

  function SpaceAt(s: seq<byte>): (at: nat)
    ensures at <= |s| && (at < |s| ==> s[at] == SPACE) && forall i :: 0 <= i < at ==> s[i] != SPACE
  {
    if s == [] || s[0] == SPACE then 0 else 1 + SpaceAt(s[1..])
  }

  function ParseNumber(line: seq<byte>): Number {
    if |line| < 4 then None else ParseU64(line[4..][..SpaceAt(line[4..])])
  }

  lemma {:induction false} SpaceAfterDigits(d: seq<byte>, rest: seq<byte>)
    requires AllDigits(d)
    ensures SpaceAt(d + [SPACE] + rest) == |d|
  {
    var s := d + [SPACE] + rest;
    if d != [] {
      SpaceAfterDigits(d[1..], rest);
      assert s[1..] == d[1..] + [SPACE] + rest;
    }
  }

  /** The article number of a served status line is read back. */
  lemma NumberIsReadBack(kind: Kind, number: u64, id: seq<byte>)
    ensures ParseNumber(StatusLine(CodeFor(kind), number, id)) == Some(number)
  {
    var code, digits := Digits(CodeFor(kind)), Digits(number);
    var line := StatusLine(CodeFor(kind), number, id);
    assert Pow10(2) == 100 && Pow10(3) == 1000;
    DigitCount(CodeFor(kind), 3);
    AtLeast(CodeFor(kind), 3);
    assert line[4..] == digits + [SPACE] + (id + CRLF);
    SpaceAfterDigits(digits, id + CRLF);
    assert line[4..][..|digits|] == digits;
    ValueOfDigits(number);
  }

  // ---------- served and taken in again ----------

  /** A captured response answers the requests its code stands for, and none for any other code. */
  lemma CapturedAnswers(code: nat, number: Number, p: seq<byte>, kind: Kind)
    ensures Answers(PayloadFor(code, number, p), kind) <==>
            || code == 220
            || (code == 221 && kind in {HeadKind, StatKind})
            || (code == 222 && kind in {BodyKind, StatKind})
            || (code == 223 && kind == StatKind)
  {
    hide BlankLine;
  }

  /** The code of a status line: its first three digits. */
  function CodeOf(line: seq<byte>): nat {
    if |line| < 3 || !AllDigits(line[..3]) then 0 else Value(line[..3])
  }

  /** A served ARTICLE has code 220, a HEAD 221, a BODY 222 and a STAT 223. */
  lemma CodeIsReadBack(kind: Kind, number: u64, id: seq<byte>)
    ensures CodeOf(StatusLine(CodeFor(kind), number, id)) ==
            match kind case ArticleKind => 220 case HeadKind => 221 case BodyKind => 222 case StatKind => 223
  {
    var line := StatusLine(CodeFor(kind), number, id);
    assert Pow10(2) == 100 && Pow10(3) == 1000;
    DigitCount(CodeFor(kind), 3);
    AtLeast(CodeFor(kind), 3);
    assert line[..3] == Digits(CodeFor(kind));
    ValueOfDigits(CodeFor(kind));
  }

  /** What stands in a status line for the number of a payload. */
  function Served(n: Number): Number { Some(if n.Some? then n.value else 0) }

  /** What is stored of a response whose status line and payload end at the given positions. */
  function Capture(code: nat, data: seq<byte>, lineEnd: nat, payloadEnd: nat): Payload {
    if code == 430 then Missing
    else if |data| < lineEnd then AvailabilityOnly
    else PayloadFor(code, ParseNumber(data[..lineEnd]), Clip(data, lineEnd, payloadEnd))
  }

  /** Taking in a chunked response; how it is cut into chunks does not matter. */
  method ParseFramed(code: nat, lineEnd: nat, chunks: seq<seq<byte>>, payloadEnd: nat) returns (p: Payload)
    ensures p == Capture(code, Join(chunks), lineEnd, payloadEnd)
  {
    hide BlankLine, ParseNumber;
    if code == 430 {
      return Missing;
    }
    var line := CopyPayloadBytes(chunks, 0, lineEnd);
    if |line| != lineEnd {
      return AvailabilityOnly;
    }
    assert line == Join(chunks)[..lineEnd];
    var number := ParseNumber(line);
    if code == 223 {
      return Stat(number);
    }
    if code != 220 && code != 221 && code != 222 {
      return AvailabilityOnly;
    }
    var payload := CopyPayloadBytes(chunks, lineEnd, payloadEnd);
    p := PayloadFor(code, number, payload);
  }

  /** A served response, taken in again from its bytes. */
  function TakenIn(w: Wire): Payload {
    Capture(CodeOf(w.line), WireBytes(w), |w.line|, |w.line| + |Content(w)|)
  }

  lemma TakenInIs(w: Wire, kind: Kind, number: u64, id: seq<byte>)
    requires w.line == StatusLine(CodeFor(kind), number, id)
    ensures TakenIn(w) == PayloadFor(CodeFor(kind), Some(number), Content(w))
  {
    hide StatusLine, ParseNumber, CodeOf, BlankLine, Content;
    CodeIsReadBack(kind, number, id);
    NumberIsReadBack(kind, number, id);
    var data, n, m := WireBytes(w), |w.line|, |w.line| + |Content(w)|;
    LineHasNoContent(w);
    assert data[..n] == w.line && data[n..m] == Content(w);
  }

  lemma LineHasNoContent(w: Wire)
    ensures w.LineOnly? ==> Content(w) == []
  {
  }

  /**
    The HEAD, the BODY and the STAT answer of any payload, taken in again from their bytes,
    are what was stored of it, with its number or 0.
   */
  lemma SectionsServedAgain(p: Payload, id: seq<byte>)
    ensures Answers(p, HeadKind) ==>
              TakenIn(HeadWire(221, StatusLine(CodeFor(HeadKind), NumberOf(p), id), p.headers)) ==
              Head(Served(p.number), p.headers)
    ensures Answers(p, BodyKind) ==>
              TakenIn(BodyWire(222, StatusLine(CodeFor(BodyKind), NumberOf(p), id), p.body)) ==
              Body(Served(p.number), p.body)
    ensures Answers(p, StatKind) ==>
              TakenIn(LineOnly(223, StatusLine(CodeFor(StatKind), NumberOf(p), id))) == Stat(Served(p.number))
  {
    hide StatusLine, TakenIn;
    if Answers(p, HeadKind) {
      var line := StatusLine(CodeFor(HeadKind), NumberOf(p), id);
      TakenInIs(HeadWire(221, line, p.headers), HeadKind, NumberOf(p), id);
    }
    if Answers(p, BodyKind) {
      var line := StatusLine(CodeFor(BodyKind), NumberOf(p), id);
      TakenInIs(BodyWire(222, line, p.body), BodyKind, NumberOf(p), id);
    }
    if Answers(p, StatKind) {
      var line := StatusLine(CodeFor(StatKind), NumberOf(p), id);
      TakenInIs(LineOnly(223, line), StatKind, NumberOf(p), id);
    }
  }

  /** So is every article that was taken in from a response, whatever its bytes. */
  lemma ArticleServedAgain(number: Number, received: seq<byte>, id: seq<byte>)
    ensures var p := PayloadFor(220, number, received);
            var line := StatusLine(CodeFor(ArticleKind), NumberOf(p), id);
            TakenIn(ArticleOf(line, p)) == Article(Served(number), p.headers, p.body)
  {
    hide StatusLine, TakenIn, BlankLine;
    var p := PayloadFor(220, number, received);
    var line := StatusLine(CodeFor(ArticleKind), NumberOf(p), id);
    TakenInIs(ArticleOf(line, p), ArticleKind, NumberOf(p), id);
    ServedAgain(line, number, received);
    NumberAside(number, Served(number), Content(ArticleOf(line, p)));
  }

  lemma NumberAside(n: Number, m: Number, p: seq<byte>)
    ensures PayloadFor(220, m, p) == Article(m, PayloadFor(220, n, p).headers, PayloadFor(220, n, p).body)
  {
    hide BlankLine;
  }
}
