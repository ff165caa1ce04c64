// Walking an untrusted chain: a judge looks at the items validated so far and either
// yields the next item or ends the walk.  A walk is the one maximal run of a judge.
module Walks {
  datatype Verdict<+V, +E> = Extend(item: V) | Halt(exit: E)

  // Every item of p was yielded after exactly the items before it.
  ghost predicate Admitted<V(!new), E(!new)>(judge: seq<V> -> Verdict<V, E>, p: seq<V>)
  {
    forall i :: 0 <= i < |p| ==> judge(p[..i]) == Extend(p[i])
  }

  ghost predicate Ends<V(!new), E(!new)>(judge: seq<V> -> Verdict<V, E>, p: seq<V>, exit: E)
  {
    Admitted(judge, p) && judge(p) == Halt(exit)
  }

  lemma AdmittedExtends<V(!new), E(!new)>(judge: seq<V> -> Verdict<V, E>, p: seq<V>, item: V)
    requires Admitted(judge, p) && judge(p) == Extend(item)
    ensures Admitted(judge, p + [item])
  {
    forall i | 0 <= i < |p| + 1
      ensures judge((p + [item])[..i]) == Extend((p + [item])[i])
    {
      if i < |p| {
        assert (p + [item])[..i] == p[..i];
      } else {
        assert (p + [item])[..i] == p;
      }
    }
  }

  // Two ended walks of one judge are the same walk.
  lemma EndsUnique<V(!new), E(!new)>(judge: seq<V> -> Verdict<V, E>, p: seq<V>, e: E, q: seq<V>, f: E)
    requires Ends(judge, p, e) && Ends(judge, q, f)
    ensures p == q && e == f
  {
    var n := if |p| < |q| then |p| else |q|;
    CommonPrefix(judge, p, q, n);
    assert |p| == n ==> p[..n] == p;
    assert |q| == n ==> q[..n] == q;
  }

  lemma {:induction false} CommonPrefix<V(!new), E(!new)>(
    judge: seq<V> -> Verdict<V, E>, p: seq<V>, q: seq<V>, n: nat)
    requires Admitted(judge, p) && Admitted(judge, q) && n <= |p| && n <= |q|
    ensures p[..n] == q[..n]
  {
    if n > 0 {
      CommonPrefix(judge, p, q, n - 1);
      assert judge(p[..n - 1]) == judge(q[..n - 1]);
      assert p[..n] == p[..n - 1] + [p[n - 1]];
      assert q[..n] == q[..n - 1] + [q[n - 1]];
    }
  }

  // ---- What a walk collects ----

  function Joined<T>(parts: seq<seq<T>>): seq<T>
  {
    if parts == [] then [] else parts[0] + Joined(parts[1..])
  }

  lemma {:induction false} JoinedLast<T>(parts: seq<seq<T>>, last: seq<T>)
    ensures Joined(parts + [last]) == Joined(parts) + last
  {
    if parts == [] {
      assert parts + [last] == [last] && [last][1..] == [];
    } else {
      JoinedLast(parts[1..], last);
      assert (parts + [last])[1..] == parts[1..] + [last];
      assert parts[0] + (Joined(parts[1..]) + last) == (parts[0] + Joined(parts[1..])) + last;
    }
  }
}
