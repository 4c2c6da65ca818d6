/** The contents of a `deque(maxlen=n)`: the last n of everything ever appended to it. */
module BoundedQueue {
  function Last<T>(n: nat, s: seq<T>): (r: seq<T>)
    ensures |r| == if |s| <= n then |s| else n
  {
    if |s| <= n then s else s[|s| - n..]
  }

  /** It is a tail of the list: what is dropped comes first. */
  lemma {:induction false} LastIsTail<T>(n: nat, s: seq<T>) returns (dropped: seq<T>)
    ensures s == dropped + Last(n, s)
    ensures dropped != [] ==> |Last(n, s)| == n
  {
    dropped := s[..|s| - |Last(n, s)|];
  }

  lemma {:induction false} LastOfLast<T>(n: nat, m: nat, s: seq<T>)
    requires n <= m
    ensures Last(n, Last(m, s)) == Last(n, s)
  {
  }

  /** Appending to a full queue drops from the front exactly what the specification drops. */
  lemma {:induction false} LastAppended<T>(n: nat, s: seq<T>, t: seq<T>)
    ensures Last(n, Last(n, s) + t) == Last(n, s + t)
  {
    var kept := Last(n, s);
    var cut := |s| - |kept|;
    assert kept + t == (s + t)[cut..];
    LastOfSuffix(n, s + t, cut);
  }

  lemma {:induction false} LastAppendedTwice<T>(n: nat, s: seq<T>, t: seq<T>, u: seq<T>)
    ensures Last(n, Last(n, s + t) + u) == Last(n, s + (t + u))
  {
    LastAppended(n, s + t, u);
    assert s + t + u == s + (t + u);
  }

  lemma {:induction false} LastOfSuffix<T>(n: nat, s: seq<T>, cut: nat)
    requires cut <= |s| && (cut == 0 || cut + n <= |s|)
    ensures Last(n, s[cut..]) == Last(n, s)
  {
    if cut + n < |s| {
      assert s[cut..][|s| - cut - n..] == s[|s| - n..];
    }
  }

  /** Appending leaves a bounded queue as it was iff nothing is appended or a full queue shifts onto itself. */
  lemma {:induction false} LastUnchangedIff<T>(n: nat, s: seq<T>, t: seq<T>)
    requires |s| <= n
    ensures Last(n, s + t) == s <==> t == [] || (|s| == n && forall i :: 0 <= i < n ==> s[i] == (s + t)[i + |t|])
  {
    var r := Last(n, s + t);
    if t == [] {
      assert s + t == s;
    } else if |s| == n {
      assert forall i :: 0 <= i < n ==> r[i] == (s + t)[i + |t|];
      assert r == s <==> forall i :: 0 <= i < n ==> r[i] == s[i];
    } else {
      assert |r| > |s|;
    }
  }
}
