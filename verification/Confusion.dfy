/**
  When a load can take one provider for another.

  A host that is read back as another known host makes a proxy report a miss that the
  reported provider never had; without such hosts every report is exact.
 */
module Confusion {
  import opened Words
  import opened Blocks
  import opened Rotation
  import opened Index
  import opened Identities
  import opened Restoring
  import opened SnapshotCodec
  import opened Worlds
  import Exactness
  import Savable
  import Sharding

  /** One block in one shard, never expiring. */
  const TINY := Geometry(1, 1, U64_MAX, 1, U64_MAX)

  /** A first insertion is answered at once. */
  lemma NoteIsAnswered(h: Hasher, key: Key, p: Slot, now: u64)
    requires key != []
    ensures Has(AnswerIndex(h, ApplyIndex(h, Empty(TINY), Note(key, Bit(p), now)), key, now), p)
  {
    hide AnswerIndex, ApplyIndex;
    var idx, idx' := Empty(TINY), ApplyIndex(h, Empty(TINY), Note(key, Bit(p), now));
    assert Bit(p)[p];
    Sharding.EmptyIsEternal(TINY);
    Sharding.NoteBlocks(h, idx, key, Bit(p), now);
    Sharding.NoteTouchesOneShard(h, idx, key, Bit(p), now);
    Sharding.AnswerIsBlockLookup(h, idx', key, now);
    InsertFinds(Sharding.BlockAt(idx, GlobalBlock(TINY, h(key).hash)), h(key), key, Bit(p), p);
  }

  lemma TinyIsTidy(h: Hasher, key: Key, now: u64)
    requires key != [] && now >= 1
    ensures var idx := ApplyIndex(h, Empty(TINY), Note(key, Bit(0), now));
            && Exactness.Tidy(1, idx) && Exactness.LatchTells(idx)
            && idx == RunIndex(h, Empty(TINY), [Note(key, Bit(0), now)])
  {
    var ops := [Note(key, Bit(0), now)];
    assert ops[..0] == [];
    assert RunIndex(h, Empty(TINY), ops) == ApplyIndex(h, RunIndex(h, Empty(TINY), []), ops[0]);
    Exactness.TidyRun(h, 1, TINY, ops);
    Exactness.LatchRun(h, TINY, ops);
  }

  /** The history that confuses `x` with what it is read back as. */
  function Confusing(x: Host, key: Key, t: u64): seq<Step> {
    [Boot(0, TINY, [x]), Do(0, Note(key, Bit(0), t)), Save(0, 0, t), Boot(1, TINY, [Canon(x)]), Load(1, 0, t)]
  }

  lemma ObservedMore(h: Hasher, utf8: Utf8, steps: seq<Step>, step: Step)
    ensures Happen(h, utf8, steps + [step]) == Perform(h, utf8, Happen(h, utf8, steps), step)
    ensures Observed(h, utf8, Itself, steps + [step]) ==
            Observed(h, utf8, Itself, steps) + LearnedBy(Itself, Happen(h, utf8, steps), step)
  {
    assert (steps + [step])[..|steps|] == steps;
  }

  /** Before saving: proxy 0 knows the miss of `x`, and its snapshot can be written and read. */
  lemma BeforeSave(h: Hasher, utf8: Utf8, x: Host, key: Key, t: u64)
    requires HostOk(utf8, x) && KeyFits(key) && utf8(key) && 1 <= t < U64_MAX
    ensures var w := Happen(h, utf8, Confusing(x, key, t)[..2]);
            var idx := ApplyIndex(h, Empty(TINY), Note(key, Bit(0), t));
            var picture := Snapshot([x], SnapshotOf(h, idx, t));
            && w == World(map[0 := Proxy([x], idx)], map[]) && Writable(picture) && Readable(utf8, picture)
            && forall o :: o in Observed(h, utf8, Itself, Confusing(x, key, t)[..2]) ==> o.who == x
  {
    hide ApplyIndex, SnapshotOf, Writable, Readable, HostOk, Empty, Canon;
    var steps := Confusing(x, key, t);
    assert steps[..0] == [] && steps[..1] == [] + [steps[0]] && steps[..2] == steps[..1] + [steps[1]];
    ObservedMore(h, utf8, [], steps[0]);
    ObservedMore(h, utf8, steps[..1], steps[1]);
    assert Within(Bit(0), 1);
    assert Happen(h, utf8, steps[..1]).proxies == map[0 := Proxy([x], Empty(TINY))];
    assert TableOk(utf8, [x]);
    assert forall i :: 0 <= i < 2 ==> steps[..2][i] == steps[i] && Savable.StepOk(utf8, steps[i]);
    Savable.SavesAreReadable(h, utf8, steps[..2], 0, t);
  }

  /** After loading: proxy 1 holds the miss under the identity that `x` is read back as. */
  lemma AfterLoad(h: Hasher, utf8: Utf8, x: Host, key: Key, t: u64)
    requires HostOk(utf8, x) && KeyFits(key) && utf8(key) && 1 <= t < U64_MAX
    ensures var w := Happen(h, utf8, Confusing(x, key, t));
            var idx := ApplyIndex(h, Empty(TINY), Note(key, Bit(0), t));
            && 1 in w.proxies && w.proxies[1].layout == [Canon(x)]
            && w.proxies[1].index == RestoreInto(Empty(TINY), [Canon(x)], [Canon(x)], SnapshotOf(h, idx, t), t)
            && forall o :: o in Observed(h, utf8, Itself, Confusing(x, key, t)) ==> o.who == x
  {
    hide ApplyIndex, SnapshotOf, SnapshotBytes, Writable, Readable, HostOk, Empty, Canon, Parse, RestoreInto;
    var steps := Confusing(x, key, t);
    var idx := ApplyIndex(h, Empty(TINY), Note(key, Bit(0), t));
    BeforeSave(h, utf8, x, key, t);
    assert steps[..3] == steps[..2] + [steps[2]] && steps[..4] == steps[..3] + [steps[3]];
    assert steps == steps[..4] + [steps[4]];
    ObservedMore(h, utf8, steps[..2], steps[2]);
    ObservedMore(h, utf8, steps[..3], steps[3]);
    ObservedMore(h, utf8, steps[..4], steps[4]);
    ParseOfSaved(utf8, Snapshot([x], SnapshotOf(h, idx, t)));
    assert CanonAll([x]) == [Canon(x)];
  }

  /** A host read back as another host: that one is reported without ever having missed anything. */
  lemma Confused(h: Hasher, utf8: Utf8, x: Host, key: Key, t: u64)
    requires HostOk(utf8, x) && Canon(x) != x && KeyFits(key) && utf8(key) && 1 <= t < U64_MAX
    ensures InOrder(Confusing(x, key, t), t) && Reports(h, utf8, Confusing(x, key, t), 1, key, 0, t)
    ensures !Recorded(h, utf8, Confusing(x, key, t), 1, key, 0)
  {
    hide Happen, Observed, HostOk, Canon, AnswerIndex, RestoreInto, SnapshotOf, ApplyIndex, Exactness.Tidy,
         Exactness.LatchTells, Exactness.Twins, RunIndex;
    AfterLoad(h, utf8, x, key, t);
    var idx := ApplyIndex(h, Empty(TINY), Note(key, Bit(0), t));
    TinyIsTidy(h, key, t);
    Exactness.LoadIsTwin(h, [Canon(x)], idx, Empty(TINY), t, t);
    var restored := RestoreInto(Empty(TINY), [Canon(x)], [Canon(x)], SnapshotOf(h, idx, t), t);
    Exactness.TwinAnswers(h, restored, idx, Exactness.Counters(idx), key, t);
    NoteIsAnswered(h, key, 0, t);
  }

  /**
    Every report is exact, in every history over the known hosts, exactly when no known
    host is read back as another known one.  "news." and "news" together are the smallest
    example: a server configured as "news.." has the identity "news.".
   */
  lemma ExactIffUnconfused(h: Hasher, utf8: Utf8, known: iset<Host>, key: Key)
    requires KeyFits(key) && utf8(key)
    ensures AlwaysExact(h, utf8, known) <==> Unconfused(utf8, known)
  {
    hide Happen, Observed, HostOk, Canon, AnswerIndex;
    if Unconfused(utf8, known) {
      ExactWhenUnconfused(h, utf8, known);
    } else {
      var x :| x in known && HostOk(utf8, x) && Canon(x) in known && Canon(x) != x;
      Confused(h, utf8, x, key, 1);
      assert BootsWith(Confusing(x, key, 1), known);
    }
  }
}
