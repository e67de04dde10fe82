/** Sums over the members of a sequence, and the size of a subset. */
module Sums {

  function One(b: bool): nat { if b then 1 else 0 }

  ghost function Total<W>(ws: seq<W>, g: W -> int): int {
    if ws == [] then 0 else g(ws[0]) + Total(ws[1..], g)
  }

  lemma {:induction false} TotalUpdate<W>(ws: seq<W>, i: nat, w: W, g: W -> int)
    requires i < |ws|
    ensures Total(ws[i := w], g) == Total(ws, g) - g(ws[i]) + g(w)
  {
    if i > 0 {
      assert ws[i := w][1..] == ws[1..][i - 1 := w];
      TotalUpdate(ws[1..], i - 1, w, g);
    } else {
      assert ws[i := w][1..] == ws[1..];
    }
  }

  lemma {:induction false} TotalSnoc<W>(ws: seq<W>, w: W, g: W -> int)
    ensures Total(ws + [w], g) == Total(ws, g) + g(w)
  {
    if ws == [] {
      assert [w][1..] == [];
    } else {
      assert (ws + [w])[1..] == ws[1..] + [w];
      TotalSnoc(ws[1..], w, g);
    }
  }

  lemma {:induction false} TotalZero<W>(ws: seq<W>, g: W -> int)
    requires forall i :: 0 <= i < |ws| ==> g(ws[i]) == 0
    ensures Total(ws, g) == 0
  {
    if ws != [] { TotalZero(ws[1..], g); }
  }

  /** A sum of non-negative parts is at least any of them. */
  lemma {:induction false} TotalAtLeast<W>(ws: seq<W>, i: nat, g: W -> int)
    requires i < |ws|
    requires forall j :: 0 <= j < |ws| ==> g(ws[j]) >= 0
    ensures Total(ws, g) >= g(ws[i])
  {
    TotalNonNegative(ws[1..], g);
    if i > 0 { TotalAtLeast(ws[1..], i - 1, g); }
  }

  lemma {:induction false} TotalNonNegative<W>(ws: seq<W>, g: W -> int)
    requires forall j :: 0 <= j < |ws| ==> g(ws[j]) >= 0
    ensures Total(ws, g) >= 0
  {
    if ws != [] { TotalNonNegative(ws[1..], g); }
  }

  lemma {:induction false} SameTotals<A, B>(xs: seq<A>, ys: seq<B>, f: A -> int, g: B -> int)
    requires |xs| == |ys| && forall i :: 0 <= i < |xs| ==> f(xs[i]) == g(ys[i])
    ensures Total(xs, f) == Total(ys, g)
  {
    if xs != [] { SameTotals(xs[1..], ys[1..], f, g); }
  }

  /** Two sums over the same members that differ at most at `i`, or at most at `i` and `j`. */
  lemma {:induction false} TotalsDifferAt<W>(ws: seq<W>, f: W -> int, g: W -> int, i: nat)
    requires i < |ws| && forall k :: 0 <= k < |ws| && k != i ==> f(ws[k]) == g(ws[k])
    ensures Total(ws, f) - Total(ws, g) == f(ws[i]) - g(ws[i])
  {
    if i == 0 {
      SameTotals(ws[1..], ws[1..], f, g);
    } else {
      assert f(ws[0]) == g(ws[0]);
      TotalsDifferAt(ws[1..], f, g, i - 1);
    }
  }

  lemma {:induction false} TotalsDifferAtTwo<W>(ws: seq<W>, f: W -> int, g: W -> int, i: nat, j: nat)
    requires i < j < |ws| && forall k :: 0 <= k < |ws| && k != i && k != j ==> f(ws[k]) == g(ws[k])
    ensures Total(ws, f) - Total(ws, g) == f(ws[i]) - g(ws[i]) + f(ws[j]) - g(ws[j])
  {
    if i == 0 {
      TotalsDifferAt(ws[1..], f, g, j - 1);
    } else {
      assert f(ws[0]) == g(ws[0]);
      TotalsDifferAtTwo(ws[1..], f, g, i - 1, j - 1);
    }
  }

  lemma {:induction false} SubsetSize<T>(a: set<T>, b: set<T>)
    requires a <= b
    ensures |a| <= |b|
  {
    if a != {} {
      var x :| x in a;
      SubsetSize(a - {x}, b - {x});
    }
  }
}
