/** The Python list edits the sequence and rule lists go through: the
    index-checked replace and delete of both managers, `list.insert`, and
    the pop-then-insert row move of the terminal's tables. */
module Lists {
  import opened Wrappers

  /** `if 0 <= i < len(xs): xs[i] = x`; any other index changes nothing. */
  function ReplaceAt<T>(xs: seq<T>, i: int, x: T): (r: seq<T>)
    ensures |r| == |xs|
    ensures 0 <= i < |xs| ==> r[i] == x
    ensures forall j | 0 <= j < |xs| && j != i :: r[j] == xs[j]
  {
    if 0 <= i < |xs| then xs[i := x] else xs
  }

  /** `if 0 <= i < len(xs): del xs[i]`; any other index changes nothing. */
  function RemoveAt<T>(xs: seq<T>, i: int): (r: seq<T>)
    ensures !(0 <= i < |xs|) ==> r == xs
    ensures 0 <= i < |xs| ==> |r| == |xs| - 1
    ensures 0 <= i < |xs| ==> forall j | 0 <= j < i :: r[j] == xs[j]
    ensures 0 <= i < |xs| ==> forall j | i <= j < |r| :: r[j] == xs[j + 1]
    ensures 0 <= i < |xs| ==> multiset(r) + multiset{xs[i]} == multiset(xs)
  {
    if 0 <= i < |xs| then
      assert xs == xs[..i] + [xs[i]] + xs[i + 1..];
      xs[..i] + xs[i + 1..]
    else xs
  }

  /** `xs.insert(i, x)` for `i >= 0`: an index past the end appends. */
  function Insert<T>(xs: seq<T>, i: nat, x: T): (r: seq<T>)
    ensures |r| == |xs| + 1
    ensures r[Min(i, |xs|)] == x
    ensures forall j | 0 <= j < Min(i, |xs|) :: r[j] == xs[j]
    ensures forall j | Min(i, |xs|) < j < |r| :: r[j] == xs[j - 1]
    ensures multiset(r) == multiset(xs) + multiset{x}
  {
    var k := Min(i, |xs|);
    assert xs == xs[..k] + xs[k..];
    xs[..k] + [x] + xs[k..]
  }

  function Min(a: int, b: int): int {
    if a <= b then a else b
  }

  /** Where a row dropped at `dest` ends up once the source row is gone:
      the view reports a downward move one past the target. */
  function Landing(source: nat, dest: nat): nat {
    if dest > source then dest - 1 else dest
  }

  /** `handle_rows_moved` on the data list: `pop(source)` then
      `insert(dest', item)`. A source past the end makes `pop` raise
      before anything changes: None. */
  function MoveRow<T>(xs: seq<T>, source: nat, dest: nat): (r: Option<seq<T>>)
    ensures r.None? <==> source >= |xs|
    ensures r.Some? ==> |r.value| == |xs|
  {
    if source < |xs| then Some(Insert(RemoveAt(xs, source), Landing(source, dest), xs[source]))
    else None
  }

  /** The moved row holds the item that was at `source`. */
  function Where(n: nat, source: nat, dest: nat): nat
    requires source < n
  {
    Min(Landing(source, dest), n - 1)
  }

  /** A move is a permutation: the same rows, each as often as before. */
  lemma MoveRowPermutes<T>(xs: seq<T>, source: nat, dest: nat)
    requires source < |xs|
    ensures multiset(MoveRow(xs, source, dest).value) == multiset(xs)
  {
    var rest := RemoveAt(xs, source);
    assert multiset(rest) + multiset{xs[source]} == multiset(xs);
  }

  /** The moved item sits at its landing place (clamped to the last row),
      and taking it out again leaves the other rows exactly as taking it
      out of the original did: every other row keeps its relative order. */
  lemma MoveRowKeepsOthers<T>(xs: seq<T>, source: nat, dest: nat)
    requires source < |xs|
    ensures var r := MoveRow(xs, source, dest).value;
      && r[Where(|xs|, source, dest)] == xs[source]
      && RemoveAt(r, Where(|xs|, source, dest)) == RemoveAt(xs, source)
  {
    var rest := RemoveAt(xs, source);
    RemoveInsert(rest, Landing(source, dest), xs[source]);
  }

  /** Taking out what `insert` put in gives back the list. */
  lemma RemoveInsert<T>(xs: seq<T>, i: nat, x: T)
    ensures RemoveAt(Insert(xs, i, x), Min(i, |xs|)) == xs
  {
    var r := Insert(xs, i, x);
    var k := Min(i, |xs|);
    var t := RemoveAt(r, k);
    assert |t| == |xs|;
    forall j | 0 <= j < |xs|
      ensures t[j] == xs[j]
    {
      if j < k {
      } else {
        assert t[j] == r[j + 1];
      }
    }
  }

  /** Putting back the item `del` took out, where it was, gives back the list. */
  lemma InsertRemove<T>(xs: seq<T>, i: nat)
    requires i < |xs|
    ensures Insert(RemoveAt(xs, i), i, xs[i]) == xs
  {
    var t := Insert(RemoveAt(xs, i), i, xs[i]);
    assert |t| == |xs|;
    forall j | 0 <= j < |xs|
      ensures t[j] == xs[j]
    {
    }
  }

  /** Dragging the row back to where it came from undoes the move. The
      view reports a downward drop one past the target row. */
  lemma MoveRowUndo<T>(xs: seq<T>, source: nat, dest: nat)
    requires source < |xs|
    ensures var w := Where(|xs|, source, dest);
      MoveRow(MoveRow(xs, source, dest).value, w, if source > w then source + 1 else source)
      == Some(xs)
  {
    var rest := RemoveAt(xs, source);
    var w := Where(|xs|, source, dest);
    var r := Insert(rest, Landing(source, dest), xs[source]);
    RemoveInsert(rest, Landing(source, dest), xs[source]);
    assert RemoveAt(r, w) == rest;
    var back := if source > w then source + 1 else source;
    assert Landing(w, back) == source;
    InsertRemove(xs, source);
  }
}
