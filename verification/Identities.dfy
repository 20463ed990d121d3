/**
  Provider identities: configured host names with one trailing dot removed and ASCII
  letters in lower case.
 */
module Identities {
  import opened Words

  type Host = seq<byte>

  const DOT: byte := 46

  function Lower(c: byte): byte { if 65 <= c <= 90 then c + 32 else c }

  function LowerAll(s: seq<byte>): (r: seq<byte>)
    ensures |r| == |s| && forall i :: 0 <= i < |s| ==> r[i] == Lower(s[i])
  {
    seq(|s|, i requires 0 <= i < |s| => Lower(s[i]))
  }

  /** The identity behind a configured or persisted host name. */
  function Canon(host: seq<byte>): Host {
    if host != [] && host[|host| - 1] == DOT then LowerAll(host[..|host| - 1]) else LowerAll(host)
  }

  function CanonAll(hosts: seq<Host>): (r: seq<Host>)
    ensures |r| == |hosts| && forall i :: 0 <= i < |hosts| ==> r[i] == Canon(hosts[i])
  {
    seq(|hosts|, i requires 0 <= i < |hosts| => Canon(hosts[i]))
  }

  predicate EndsInDot(host: Host) { host != [] && host[|host| - 1] == DOT }

  /** Taking the identity of an identity changes it exactly when it still ends in a dot. */
  lemma CanonOfIdentity(name: seq<byte>)
    ensures Canon(Canon(name)) == Canon(name) <==> !EndsInDot(Canon(name))
  {
    var id := Canon(name);
    assert LowerAll(id) == id;
  }

  /** Two bytes that are the same letter in either case, or the same byte. */
  predicate SameLetter(a: byte, b: byte) {
    a == b || (65 <= a <= 90 && b == a + 32) || (65 <= b <= 90 && a == b + 32)
  }

  predicate SameSpelling(a: seq<byte>, b: seq<byte>) {
    |a| == |b| && forall i :: 0 <= i < |a| ==> SameLetter(a[i], b[i])
  }

  /** A name without one trailing dot. */
  function WithoutDot(name: seq<byte>): seq<byte> { if EndsInDot(name) then name[..|name| - 1] else name }

  /** Two names have one identity exactly when they differ in letter case and one trailing dot at most. */
  lemma OneIdentityIff(a: seq<byte>, b: seq<byte>)
    ensures Canon(a) == Canon(b) <==> SameSpelling(WithoutDot(a), WithoutDot(b))
  {
    var x, y := WithoutDot(a), WithoutDot(b);
    assert Canon(a) == LowerAll(x) && Canon(b) == LowerAll(y);
    if Canon(a) == Canon(b) {
      forall i | 0 <= i < |x|
        ensures SameLetter(x[i], y[i])
      {
        assert LowerAll(x)[i] == LowerAll(y)[i];
      }
    }
  }

  /** The host name without any trailing dot: what all identities of one name share. */
  function Root(host: Host): Host
  {
    if EndsInDot(host) then Root(host[..|host| - 1]) else LowerAll(host)
  }

  lemma {:induction false} RootOfLower(s: seq<byte>)
    ensures Root(LowerAll(s)) == Root(s)
  {
    if EndsInDot(s) {
      assert LowerAll(s)[..|s| - 1] == LowerAll(s[..|s| - 1]);
      RootOfLower(s[..|s| - 1]);
    } else {
      assert LowerAll(LowerAll(s)) == LowerAll(s);
    }
  }

  lemma RootOfCanon(name: seq<byte>)
    ensures Root(Canon(name)) == Root(name)
  {
    if EndsInDot(name) {
      RootOfLower(name[..|name| - 1]);
    } else {
      RootOfLower(name);
    }
  }

  // ---------- known hosts ----------

  /** For providers told apart by their identity. */
  function Itself(host: Host): Host { host }

  /** Every host of a table is known. */
  ghost predicate All(hosts: seq<Host>, known: iset<Host>) { forall i :: 0 <= i < |hosts| ==> hosts[i] in known }

  ghost function Everyone(): (known: iset<Host>)
    ensures forall host: Host :: host in known
  {
    iset host: Host | Itself(host) == host
  }
}
