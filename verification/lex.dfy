/** JavaScript's relational operators on strings: lexicographic comparison of
    code points, where a proper prefix sorts first. IndexedDB orders string
    keys the same way. */
module Lex {

  predicate Le(a: string, b: string) {
    a == [] || (b != [] && (a[0] < b[0] || (a[0] == b[0] && Le(a[1..], b[1..]))))
  }

  predicate Lt(a: string, b: string) {
    Le(a, b) && a != b
  }

  lemma {:induction false} LeRefl(a: string)
    ensures Le(a, a)
  {
    if a != [] {
      LeRefl(a[1..]);
    }
  }

  lemma {:induction false} LeTotal(a: string, b: string)
    ensures Le(a, b) || Le(b, a)
  {
    if a != [] && b != [] && a[0] == b[0] {
      LeTotal(a[1..], b[1..]);
    }
  }

  lemma {:induction false} LeTrans(a: string, b: string, c: string)
    requires Le(a, b) && Le(b, c)
    ensures Le(a, c)
  {
    if a != [] && a[0] == b[0] && b[0] == c[0] {
      LeTrans(a[1..], b[1..], c[1..]);
    }
  }

  lemma {:induction false} LeAntisym(a: string, b: string)
    requires Le(a, b) && Le(b, a)
    ensures a == b
  {
    if a != [] {
      LeAntisym(a[1..], b[1..]);
      assert a == [a[0]] + a[1..] && b == [b[0]] + b[1..];
    }
  }

  lemma LtAsym(a: string, b: string)
    ensures !(Lt(a, b) && Lt(b, a))
  {
    if Le(a, b) && Le(b, a) {
      LeAntisym(a, b);
    }
  }

  /** "not greater" is transitive: `!(b < a)` and `!(c < b)` give `!(c < a)`. */
  lemma NotLtTrans(a: string, b: string, c: string)
    requires !Lt(b, a) && !Lt(c, b)
    ensures !Lt(c, a)
  {
    LeTotal(a, b);
    LeTotal(b, c);
    if Le(a, b) && Le(b, c) {
      LeTrans(a, b, c);
      if Le(c, a) {
        LeAntisym(a, c);
      }
    }
  }
}
