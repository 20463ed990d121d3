/**
  Cached payloads: which requests they can answer and which of two payloads is kept.
 */
module Payloads {
  import opened Words

  const CRLF: seq<byte> := [13, 10]

  type Number = Option<u64>

  datatype Payload =
    | Missing
    | AvailabilityOnly
    | Article(number: Number, headers: seq<byte>, body: seq<byte>)
    | Head(number: Number, headers: seq<byte>)
    | Body(number: Number, body: seq<byte>)
    | Stat(number: Number)

  datatype Kind = ArticleKind | HeadKind | BodyKind | StatKind

  /** The request kinds a payload can answer. */
  predicate Answers(p: Payload, kind: Kind) {
    match p
    case Missing => false
    case AvailabilityOnly => false
    case Article(_, _, _) => true
    case Head(_, _) => kind.HeadKind? || kind.StatKind?
    case Body(_, _) => kind.BodyKind? || kind.StatKind?
    case Stat(_) => kind.StatKind?
  }

  /** The same as a bit set: ARTICLE 1, HEAD 2, BODY 4, STAT 8. */
  function AnswerBits(p: Payload): (bits: seq<bool>)
    ensures |bits| == 4
    ensures bits[0] == Answers(p, ArticleKind) && bits[1] == Answers(p, HeadKind)
    ensures bits[2] == Answers(p, BodyKind) && bits[3] == Answers(p, StatKind)
  {
    match p
    case Article(_, _, _) => [true, true, true, true]
    case Head(_, _) => [false, true, false, true]
    case Body(_, _) => [false, false, true, true]
    case Stat(_) => [false, false, false, true]
    case Missing => [false, false, false, false]
    case AvailabilityOnly => [false, false, false, false]
  }

  predicate StrictlyMoreUseful(incoming: Payload, existing: Payload) {
    && (forall i :: 0 <= i < 4 && AnswerBits(existing)[i] ==> AnswerBits(incoming)[i])
    && AnswerBits(incoming) != AnswerBits(existing)
  }

  function Len(p: Payload): nat {
    match p
    case Article(_, headers, body) => |headers| + |body|
    case Head(_, headers) => |headers|
    case Body(_, body) => |body|
    case Stat(_) => 0
    case Missing => 0
    case AvailabilityOnly => 0
  }

  /** Keep the stored payload when it is longer, or when an equally long one answers nothing more. */
  predicate KeepsSameCompleteness(existing: Payload, incoming: Payload) {
    Len(existing) > Len(incoming) || (Len(existing) == Len(incoming) && !StrictlyMoreUseful(incoming, existing))
  }

  /** An article number survives a merge unless the two sides disagree. */
  function RetainedNumber(left: Number, right: Number): Number {
    if left.Some? && right.Some? then (if left == right then left else None)
    else if left.Some? then left
    else right
  }

  /** Complementary sections make an article. */
  function Merged(left: Payload, right: Payload): Option<Payload> {
    match (left, right)
    case (Head(l, headers), Body(r, body)) => Some(Article(RetainedNumber(l, r), headers, body))
    case (Body(l, body), Head(r, headers)) => Some(Article(RetainedNumber(l, r), headers, body))
    case _ => None
  }

  /** A stored article that can be served: status 220 and not both sections empty. */
  predicate Complete(status: nat, p: Payload) {
    status == 220 && p.Article? && (p.headers != [] || p.body != [])
  }

  /** Whether a new payload takes the place of the stored one. */
  predicate Replaces(status: nat, existing: Payload, newStatus: nat, incoming: Payload) {
    var was, will := Complete(status, existing), Complete(newStatus, incoming);
    if was != will then will else !KeepsSameCompleteness(existing, incoming)
  }

  /** Parsing gives an article the status 220. */
  predicate Fitting(status: nat, p: Payload) { p.Article? ==> status == 220 }

  /** The payload an ingest leaves. */
  function Kept(status: nat, existing: Payload, newStatus: nat, incoming: Payload): Payload {
    match Merged(existing, incoming)
    case Some(p) => p
    case None => if Replaces(status, existing, newStatus, incoming) then incoming else existing
  }

  /** A nonempty HEAD or BODY against an article with both sections empty. */
  predicate Displaces(incoming: Payload, existing: Payload) {
    && existing.Article? && existing.headers == [] && existing.body == []
    && (incoming.Head? || incoming.Body?) && Len(incoming) > 0
  }

  /**
    An ingest loses an answer exactly when the stored payload is an article with both
    sections empty and the new one is a nonempty HEAD or BODY.
   */
  lemma LosesIff(status: nat, existing: Payload, newStatus: nat, incoming: Payload)
    requires Fitting(status, existing) && Fitting(newStatus, incoming)
    ensures (exists kind :: Answers(existing, kind) && !Answers(Kept(status, existing, newStatus, incoming), kind)) <==>
            Displaces(incoming, existing)
  {
    var kept := Kept(status, existing, newStatus, incoming);
    if Displaces(incoming, existing) {
      assert kept == incoming;
      assert Answers(existing, ArticleKind) && !Answers(kept, ArticleKind);
    } else {
      forall kind | Answers(existing, kind)
        ensures Answers(kept, kind)
      {
        if kept == incoming && kept != existing {
          MoreUsefulAnswers(incoming, existing, kind);
        }
      }
    }
  }

  /** The mirror: a new answer is refused exactly when an empty article meets a stored nonempty HEAD or BODY. */
  lemma RefusesIff(status: nat, existing: Payload, newStatus: nat, incoming: Payload)
    requires Fitting(status, existing) && Fitting(newStatus, incoming)
    ensures (exists kind :: Answers(incoming, kind) && !Answers(Kept(status, existing, newStatus, incoming), kind)) <==>
            Displaces(existing, incoming)
  {
    var kept := Kept(status, existing, newStatus, incoming);
    if Displaces(existing, incoming) {
      assert kept == existing;
      assert Answers(incoming, ArticleKind) && !Answers(kept, ArticleKind);
    } else if kept == existing && Len(existing) == Len(incoming) {
      forall kind | Answers(incoming, kind)
        ensures Answers(kept, kind)
      {
        KindsCompare(incoming, existing, kind);
      }
    }
  }

  lemma KindsCompare(incoming: Payload, existing: Payload, kind: Kind)
    ensures StrictlyMoreUseful(incoming, existing) <==>
            && (forall other :: Answers(existing, other) ==> Answers(incoming, other))
            && (exists other :: Answers(incoming, other) && !Answers(existing, other))
    ensures Answers(incoming, kind) && Merged(existing, incoming).None? && !StrictlyMoreUseful(incoming, existing) ==>
            Answers(existing, kind)
  {
    forall other
      ensures StrictlyMoreUseful(incoming, existing) && Answers(existing, other) ==> Answers(incoming, other)
    {
      MoreUsefulAnswers(incoming, existing, other);
    }
    var more, less := AnswerBits(incoming), AnswerBits(existing);
    if more != less {
      assert more[0] != less[0] || more[1] != less[1] || more[2] != less[2] || more[3] != less[3];
    }
  }

  lemma MoreUsefulAnswers(incoming: Payload, existing: Payload, kind: Kind)
    ensures StrictlyMoreUseful(incoming, existing) && Answers(existing, kind) ==> Answers(incoming, kind)
  {
    var i := match kind case ArticleKind => 0 case HeadKind => 1 case BodyKind => 2 case StatKind => 3;
    assert AnswerBits(existing)[i] == Answers(existing, kind) && AnswerBits(incoming)[i] == Answers(incoming, kind);
  }

  /** A complete article stays complete. */
  lemma CompleteStays(status: nat, existing: Payload, newStatus: nat, incoming: Payload)
    requires Complete(status, existing) && Fitting(newStatus, incoming)
    ensures Complete(220, Kept(status, existing, newStatus, incoming))
  {
  }
}
