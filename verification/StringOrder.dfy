/**
 The order Go gives to strings: byte by byte, a proper prefix first. (For valid UTF-8 the order of the
 bytes is the order of the code points, so `char` comparison is the same order.)
 */
module StringOrder {

  predicate Less(a: string, b: string)
  {
    if b == "" then false
    else if a == "" then true
    else a[0] < b[0] || (a[0] == b[0] && Less(a[1..], b[1..]))
  }

  lemma {:induction false} LessTrichotomy(a: string, b: string)
    ensures Less(a, b) || Less(b, a) || a == b
    ensures !(Less(a, b) && Less(b, a))
    ensures a == b ==> !Less(a, b)
  {
    if a != "" && b != "" {
      LessTrichotomy(a[1..], b[1..]);
      if a[0] == b[0] && a[1..] == b[1..] {
        assert a == [a[0]] + a[1..] == b;
      }
    }
  }

  lemma {:induction false} LessTransitive(a: string, b: string, c: string)
    requires Less(a, b) && Less(b, c)
    ensures Less(a, c)
  {
    if a != "" && a[0] == b[0] == c[0] {
      LessTransitive(a[1..], b[1..], c[1..]);
    }
  }

  /** `a` comes strictly before `b` in a listing in the given direction. */
  predicate Before(a: string, b: string, descending: bool)
  {
    if descending then Less(b, a) else Less(a, b)
  }

  lemma BeforeTotal(a: string, b: string, descending: bool)
    ensures Before(a, b, descending) || Before(b, a, descending) || a == b
    ensures !(Before(a, b, descending) && Before(b, a, descending))
    ensures a == b ==> !Before(a, b, descending)
  {
    LessTrichotomy(a, b);
  }

  lemma BeforeTransitive(a: string, b: string, c: string, descending: bool)
    requires Before(a, b, descending) && Before(b, c, descending)
    ensures Before(a, c, descending)
  {
    if descending {
      LessTransitive(c, b, a);
    } else {
      LessTransitive(a, b, c);
    }
  }
}
