/** The order that string comparison uses on store keys and job names: character by
    character, a proper prefix first. Code-point order and UTF-8 byte order agree. */
module Lexicographic {

  predicate Less(a: string, b: string) {
    b != "" && (a == "" || a[0] < b[0] || (a[0] == b[0] && Less(a[1..], b[1..])))
  }

  lemma {:induction false} Irreflexive(a: string)
    ensures !Less(a, a)
  {
    if a != "" { Irreflexive(a[1..]); }
  }

  lemma {:induction false} Transitive(a: string, b: string, c: string)
    requires Less(a, b) && Less(b, c)
    ensures Less(a, c)
  {
    if a != "" && a[0] == b[0] && b[0] == c[0] { Transitive(a[1..], b[1..], c[1..]); }
  }

  lemma {:induction false} Asymmetric(a: string, b: string)
    requires Less(a, b)
    ensures !Less(b, a)
  {
    if Less(b, a) {
      Transitive(a, b, a);
      Irreflexive(a);
    }
  }

  lemma {:induction false} Total(a: string, b: string)
    ensures Less(a, b) || Less(b, a) || a == b
  {
    if a != "" && b != "" && a[0] == b[0] {
      Total(a[1..], b[1..]);
      assert a == [a[0]] + a[1..] && b == [b[0]] + b[1..];
    }
  }

  /** A common front decides nothing. */
  lemma {:induction false} CommonFront(p: string, a: string, b: string)
    ensures Less(p + a, p + b) <==> Less(a, b)
  {
    if p == "" {
      assert p + a == a && p + b == b;
    } else {
      CommonFront(p[1..], a, b);
      assert (p + a)[1..] == p[1..] + a && (p + b)[1..] == p[1..] + b;
    }
  }

  /** A string is never below one of its own prefixes. */
  lemma {:induction false} PrefixFirst(p: string, s: string)
    requires p <= s
    ensures !Less(s, p)
  {
    if p != "" { PrefixFirst(p[1..], s[1..]); }
  }

  /** The strings that start with p are an interval: nothing else lies between p and one
      of them. */
  lemma {:induction false} PrefixInterval(p: string, a: string, b: string)
    requires !Less(a, p) && !Less(b, a) && p <= b
    ensures p <= a
  {
    if p != "" {
      PrefixInterval(p[1..], a[1..], b[1..]);
      assert p == [p[0]] + p[1..] && a == [a[0]] + a[1..];
    }
  }
}
