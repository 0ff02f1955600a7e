/** The order of strings that Go's `<` and `sort.Strings` use. */
module Order {

  predicate Less(a: string, b: string) {
    if b == [] then false
    else if a == [] then true
    else if a[0] != b[0] then a[0] < b[0]
    else Less(a[1..], b[1..])
  }

  /** A name is less if it is a proper beginning of the other, or has the smaller character where they first differ. */
  lemma {:induction false} LessMeans(a: string, b: string)
    ensures Less(a, b) <==> exists i: nat :: FirstDifference(a, b, i) && (i == |a| || a[i] < b[i])
  {
    if b != [] {
      if a == [] {
        assert FirstDifference(a, b, 0);
      } else if a[0] != b[0] {
        assert forall i: nat :: FirstDifference(a, b, i) ==> i == 0;
        assert FirstDifference(a, b, 0);
      } else {
        LessMeans(a[1..], b[1..]);
        forall i: nat
          ensures FirstDifference(a, b, i + 1) <==> FirstDifference(a[1..], b[1..], i)
        {
          if i < |b| - 1 && i <= |a| - 1 {
            assert a[..i + 1] == [a[0]] + a[1..][..i] && b[..i + 1] == [b[0]] + b[1..][..i];
            assert a[1..][..i] == a[..i + 1][1..] && b[1..][..i] == b[..i + 1][1..];
          }
        }
        if i: nat :| FirstDifference(a, b, i) && (i == |a| || a[i] < b[i]) {
          assert i > 0;
          assert FirstDifference(a[1..], b[1..], i - 1);
        }
        if i: nat :| FirstDifference(a[1..], b[1..], i) && (i == |a| - 1 || a[1..][i] < b[1..][i]) {
          assert FirstDifference(a, b, i + 1);
        }
      }
    }
  }

  /** Up to the i-th character the names agree, and there `a` ends or differs from `b`. */
  predicate FirstDifference(a: string, b: string, i: nat) {
    i <= |a| && i < |b| && a[..i] == b[..i] && (i == |a| || a[i] != b[i])
  }

  lemma {:induction false} LessIsTotal(a: string, b: string)
    ensures Less(a, b) || a == b || Less(b, a)
    ensures !(Less(a, b) && Less(b, a))
    ensures !Less(a, a)
  {
    if a != [] {
      LessIsTotal(a[1..], if b == [] then [] else b[1..]);
    }
    if a != [] && b != [] {
      assert a == [a[0]] + a[1..] && b == [b[0]] + b[1..];
    }
  }

  lemma {:induction false} LessIsTransitive(a: string, b: string, c: string)
    requires Less(a, b) && Less(b, c)
    ensures Less(a, c)
  {
    if a != [] && a[0] == b[0] == c[0] {
      LessIsTransitive(a[1..], b[1..], c[1..]);
    }
  }

  lemma {:induction false} HasGreatest(names: set<string>) returns (top: string)
    requires names != {}
    ensures top in names && forall n | n in names :: n == top || Less(n, top)
    decreases |names|
  {
    top :| top in names;
    var rest := names - {top};
    if rest != {} {
      var t := HasGreatest(rest);
      LessIsTotal(top, t);
      if Less(top, t) {
        top := t;
      } else {
        forall n | n in rest && n != t
          ensures Less(n, top)
        {
          LessIsTransitive(n, t, top);
        }
      }
    }
  }

  /** The greatest name of a non-empty set. */
  method Greatest(names: set<string>) returns (top: string)
    requires names != {}
    ensures top in names && forall n | n in names :: n == top || Less(n, top)
  {
    top :| top in names;
    var todo := names - {top};
    while todo != {}
      invariant top in names && todo <= names
      invariant forall n | n in names - todo :: n == top || Less(n, top)
      decreases |todo|
    {
      var n :| n in todo;
      todo := todo - {n};
      LessIsTotal(n, top);
      if Less(top, n) {
        forall m | m in names - todo
          ensures m == n || Less(m, n)
        {
          if m != n && m != top {
            LessIsTransitive(m, top, n);
          }
        }
        top := n;
      }
    }
  }
}
