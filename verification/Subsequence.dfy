/** Order-preserving subsequences. */
module Subsequence {
  ghost predicate Subseq<X>(s: seq<X>, t: seq<X>) {
    if s == [] then true
    else if t == [] then false
    else
      || (s[|s| - 1] == t[|t| - 1] && Subseq(s[..|s| - 1], t[..|t| - 1]))
      || Subseq(s, t[..|t| - 1])
  }

  lemma {:induction false} SubseqReflexive<X>(s: seq<X>)
    ensures Subseq(s, s)
  {
    if s != [] {
      SubseqReflexive(s[..|s| - 1]);
    }
  }

  lemma {:induction false} SubseqAppend<X>(s: seq<X>, t: seq<X>, u: seq<X>)
    requires Subseq(s, t)
    ensures Subseq(s + u, t + u)
  {
    if u == [] {
      assert s + u == s && t + u == t;
    } else {
      var u' := u[..|u| - 1];
      SubseqAppend(s, t, u');
      assert (s + u)[..|s + u| - 1] == s + u' && (t + u)[..|t + u| - 1] == t + u';
    }
  }

  lemma {:induction false} SubseqPrepend<X>(p: seq<X>, s: seq<X>, t: seq<X>)
    requires Subseq(s, t)
    ensures Subseq(p + s, p + t)
  {
    if t == [] {
      SubseqReflexive(p);
      assert p + s == p && p + t == p;
    } else {
      var t' := t[..|t| - 1];
      assert (p + t)[..|p + t| - 1] == p + t';
      if s == [] {
        SubseqPrepend(p, s, t');
      } else if s[|s| - 1] == t[|t| - 1] && Subseq(s[..|s| - 1], t') {
        SubseqPrepend(p, s[..|s| - 1], t');
        assert (p + s)[..|p + s| - 1] == p + s[..|s| - 1];
      } else {
        SubseqPrepend(p, s, t');
      }
    }
  }

  lemma {:induction false} SubseqTransitive<X>(s: seq<X>, t: seq<X>, u: seq<X>)
    requires Subseq(s, t) && Subseq(t, u)
    ensures Subseq(s, u)
    decreases |u|
  {
    if s != [] && t != [] && u != [] {
      var s', t', u' := s[..|s| - 1], t[..|t| - 1], u[..|u| - 1];
      if t[|t| - 1] == u[|u| - 1] && Subseq(t', u') {
        if s[|s| - 1] == t[|t| - 1] && Subseq(s', t') {
          SubseqTransitive(s', t', u');
        } else {
          SubseqTransitive(s, t', u');
        }
      } else {
        SubseqTransitive(s, t, u');
      }
    }
  }

  lemma SubseqDropLast<X>(s: seq<X>, t: seq<X>)
    requires s != [] && Subseq(s, t)
    ensures Subseq(s[..|s| - 1], t)
  {
  }

  /** A subsequence has no elements of its own, and keeps distinctness. */
  lemma {:induction false} SubseqElements<X>(s: seq<X>, t: seq<X>)
    requires Subseq(s, t)
    ensures forall x | x in s :: x in t
  {
    if s != [] && t != [] {
      var s', t' := s[..|s| - 1], t[..|t| - 1];
      assert s == s' + [s[|s| - 1]] && t == t' + [t[|t| - 1]];
      if s[|s| - 1] == t[|t| - 1] && Subseq(s', t') {
        SubseqElements(s', t');
      } else {
        SubseqElements(s, t');
      }
    }
  }
}
