/** Places in a ring of n slots: the k-th item from the start goes into slot Ix(n, k). */
module Ring {

  function Ix(n: nat, k: nat): (i: nat)
    requires n > 0
    ensures i < n
  {
    if k < n then k else Ix(n, k - n)
  }

  /** Increment and wrap. */
  function Bump(n: nat, i: nat): nat {
    if i + 1 >= n then 0 else i + 1
  }

  lemma {:induction false} LemmaIxStep(n: nat, k: nat)
    requires n > 0
    ensures Ix(n, k + 1) == Bump(n, Ix(n, k))
    decreases k
  {
    if k >= n {
      LemmaIxStep(n, k - n);
    }
  }

  lemma {:induction false} LemmaIxDistinct(n: nat, j: nat, k: nat)
    requires n > 0 && j < k < j + n
    ensures Ix(n, j) != Ix(n, k)
    decreases j
  {
    if j >= n {
      LemmaIxDistinct(n, j - n, k - n);
    }
  }

  lemma LemmaIxSame(n: nat, j: nat, k: nat)
    requires n > 0 && Ix(n, j) == Ix(n, k) && j < k + n && k < j + n
    ensures j == k
  {
    if j < k {
      LemmaIxDistinct(n, j, k);
    } else if k < j {
      LemmaIxDistinct(n, k, j);
    }
  }

  lemma LemmaLastIx(n: nat, rel: nat, k: nat)
    requires rel < n && rel <= k < rel + n
    ensures Ix(n, k) == n - 1 <==> k == n - 1
  {
    if Ix(n, k) == n - 1 {
      LemmaIxSame(n, k, n - 1);
    }
  }
}
