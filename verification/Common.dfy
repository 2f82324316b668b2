/** Small types and arithmetic shared by the other modules. */
module Common {

  datatype Option<+T> = None | Some(value: T)

  /** A value or an error; `:-` passes the error on. */
  datatype Result<+T, +E> = Ok(value: T) | Err(error: E) {
    predicate IsFailure() {
      Err?
    }

    function PropagateFailure<U>(): Result<U, E>
      requires Err?
    {
      Err(error)
    }

    function Extract(): T
      requires Ok?
    {
      value
    }
  }

  function Min(a: int, b: int): int {
    if a <= b then a else b
  }

  function Max(a: int, b: int): int {
    if a <= b then b else a
  }

  /** Two to the power `e`. */
  function Pow2(e: nat): (p: nat)
    ensures p >= 1
  {
    if e == 0 then 1 else 2 * Pow2(e - 1)
  }

  ghost predicate Distinct<T>(s: seq<T>) {
    forall i, j :: 0 <= i < j < |s| ==> s[i] != s[j]
  }

  lemma TakeOneMore<T>(s: seq<T>, i: nat)
    requires i < |s|
    ensures s[..i + 1] == s[..i] + [s[i]]
    ensures s[..i + 1][..i] == s[..i]
  {
  }

  lemma TakeAll<T>(s: seq<T>)
    ensures s[..|s|] == s
  {
  }

  lemma SplitLast<T>(s: seq<T>)
    requires s != []
    ensures s == s[..|s| - 1] + [s[|s| - 1]]
  {
  }

  /** What one more element at the end leaves in front of it. */
  lemma DropLast<T>(s: seq<T>, x: T)
    ensures (s + [x])[..|s| + 1 - 1] == s && (s + [x])[..|s|] == s
  {
  }

  lemma DistinctMore<T>(s: seq<T>, x: T)
    ensures Distinct(s + [x]) <==> Distinct(s) && x !in s
  {
    var all := s + [x];
    if Distinct(all) {
      forall i, j | 0 <= i < j < |s| ensures s[i] != s[j] {
        assert all[i] == s[i] && all[j] == s[j];
      }
      forall i | 0 <= i < |s| ensures s[i] != x {
        assert all[i] == s[i] && all[|s|] == x;
      }
    }
  }

  lemma {:induction false} SubsetSize<T>(a: set<T>, b: set<T>)
    requires a <= b
    ensures |a| <= |b|
    decreases |a|
  {
    if a != {} {
      var x :| x in a;
      SubsetSize(a - {x}, b - {x});
    }
  }

  /** A loop over `items` that may stop with an error. */
  function Fold<S, T, E>(f: (S, T) -> Result<S, E>, start: S, items: seq<T>): Result<S, E>
    decreases |items|
  {
    if items == [] then Ok(start)
    else
      var before :- Fold(f, start, items[..|items| - 1]);
      f(before, items[|items| - 1])
  }

  lemma FoldStep<S, T, E>(f: (S, T) -> Result<S, E>, start: S, items: seq<T>, i: nat)
    requires i < |items| && Fold(f, start, items[..i]).Ok?
    ensures Fold(f, start, items[..i + 1]) == f(Fold(f, start, items[..i]).value, items[i])
  {
    TakeOneMore(items, i);
  }

  /** An error in a prefix is the error of the whole loop. */
  lemma {:induction false} FoldStops<S, T, E>(f: (S, T) -> Result<S, E>, start: S, items: seq<T>, i: nat)
    requires i <= |items| && Fold(f, start, items[..i]).Err?
    ensures Fold(f, start, items) == Fold(f, start, items[..i])
    decreases |items|
  {
    if i == |items| {
      TakeAll(items);
    } else {
      assert items[..|items| - 1][..i] == items[..i];
      FoldStops(f, start, items[..|items| - 1], i);
    }
  }
}
