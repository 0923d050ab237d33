/** The order of std::string: character by character, a proper prefix first. */
module StringOrder {
  predicate Less(a: string, b: string) {
    if b == [] then false
    else if a == [] then true
    else a[0] < b[0] || (a[0] == b[0] && Less(a[1..], b[1..]))
  }

  lemma {:induction false} LessIsIrreflexive(a: string)
    ensures !Less(a, a)
  {
    if a != [] { LessIsIrreflexive(a[1..]); }
  }

  lemma {:induction false} LessIsTransitive(a: string, b: string, c: string)
    requires Less(a, b) && Less(b, c)
    ensures Less(a, c)
  {
    if a != [] && a[0] == b[0] && b[0] == c[0] {
      LessIsTransitive(a[1..], b[1..], c[1..]);
    }
  }

  lemma {:induction false} LessIsTotal(a: string, b: string)
    ensures a == b || Less(a, b) || Less(b, a)
  {
    if a == [] || b == [] {
    } else if a[0] == b[0] {
      LessIsTotal(a[1..], b[1..]);
      assert a == [a[0]] + a[1..] && b == [b[0]] + b[1..];
    }
  }

  // Exactly one of the three relations holds.
  lemma Trichotomy(a: string, b: string)
    ensures a == b ==> !Less(a, b) && !Less(b, a)
    ensures a != b ==> Less(a, b) != Less(b, a)
  {
    LessIsIrreflexive(a);
    LessIsTotal(a, b);
    if Less(a, b) && Less(b, a) { LessIsTransitive(a, b, a); }
  }

  // The first character that differs decides; a proper prefix comes first.
  lemma {:induction false} FirstDifferenceDecides(p: string, a: string, b: string)
    ensures a != [] && b != [] && a[0] != b[0] ==> (Less(p + a, p + b) <==> a[0] < b[0])
    ensures b != [] ==> Less(p, p + b)
  {
    if p != [] {
      FirstDifferenceDecides(p[1..], a, b);
      assert (p + a)[1..] == p[1..] + a && (p + b)[1..] == p[1..] + b;
    } else {
      assert p + a == a && p + b == b;
    }
  }
}
