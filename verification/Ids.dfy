/** Node identifiers are byte strings; Go compares them lexicographically. */
module Ids {

  type Id = string

  /** Go's `a < b` on strings. */
  predicate Less(a: Id, b: Id) {
    if b == "" then false
    else if a == "" then true
    else a[0] < b[0] || (a[0] == b[0] && Less(a[1..], b[1..]))
  }

  /** They agree up to k, where a ends or has the smaller byte. */
  ghost predicate SmallerAt(a: Id, b: Id, k: nat) {
    k <= |a| && k < |b| && a[..k] == b[..k] && (k == |a| || a[k] < b[k])
  }

  /** The first difference decides, and a proper prefix comes first. */
  lemma {:induction false} LessIsLexicographic(a: Id, b: Id)
    ensures Less(a, b) <==> exists k: nat :: SmallerAt(a, b, k)
  {
    if a != "" && b != "" && a[0] == b[0] {
      LessIsLexicographic(a[1..], b[1..]);
      if k: nat :| SmallerAt(a[1..], b[1..], k) {
        assert a[..k + 1] == [a[0]] + a[1..][..k] && b[..k + 1] == [b[0]] + b[1..][..k];
        assert SmallerAt(a, b, k + 1);
      }
      if k: nat :| SmallerAt(a, b, k) {
        assert k > 0;
        assert a[1..][..k - 1] == a[..k][1..] && b[1..][..k - 1] == b[..k][1..];
        assert SmallerAt(a[1..], b[1..], k - 1);
      }
    } else {
      assert Less(a, b) ==> SmallerAt(a, b, 0);
      if k: nat :| SmallerAt(a, b, k) {
        SmallerStart(a, b, k);
      }
    }
  }

  lemma SmallerStart(a: Id, b: Id, k: nat)
    requires SmallerAt(a, b, k)
    ensures k > 0 ==> a != "" && b != "" && a[0] == b[0]
  {
    if k > 0 {
      assert a[..k][0] == b[..k][0];
    }
  }

  lemma {:induction false} LessIrreflexive(a: Id)
    ensures !Less(a, a)
  {
    if a != "" {
      LessIrreflexive(a[1..]);
    }
  }

  lemma {:induction false} LessTotal(a: Id, b: Id)
    requires a != b
    ensures Less(a, b) <==> !Less(b, a)
  {
    if a != "" && b != "" && a[0] == b[0] {
      assert a == [a[0]] + a[1..] && b == [b[0]] + b[1..];
      LessTotal(a[1..], b[1..]);
    }
  }

  lemma {:induction false} LessTransitive(a: Id, b: Id, c: Id)
    requires Less(a, b) && Less(b, c)
    ensures Less(a, c)
  {
    if a != "" && a[0] == b[0] == c[0] {
      LessTransitive(a[1..], b[1..], c[1..]);
    }
  }

  /** `Less` is a strict total order; the form the ranking lemmas consume. */
  lemma LessIsStrictTotal()
    ensures forall a: Id :: !Less(a, a)
    ensures forall a: Id, b: Id :: a != b ==> (Less(a, b) <==> !Less(b, a))
    ensures forall a: Id, b: Id, c: Id :: Less(a, b) && Less(b, c) ==> Less(a, c)
  {
    forall a: Id ensures !Less(a, a) { LessIrreflexive(a); }
    forall a: Id, b: Id | a != b ensures Less(a, b) <==> !Less(b, a) { LessTotal(a, b); }
    forall a: Id, b: Id, c: Id | Less(a, b) && Less(b, c) ensures Less(a, c) { LessTransitive(a, b, c); }
  }
}
