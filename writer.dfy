/**
 * The output files, seen as the sequence of lines written to them: every
 * `writeln!` appends one line.
 */
module Writer {
  /** `lines.iter().try_for_each(|text| writeln!(out, "{}", text))`: each line
      written verbatim, in order, after what is already there. */
  method WriteLines(out: seq<string>, lines: seq<string>) returns (r: seq<string>)
    ensures r == out + lines
  {
    r := out;
    var i := 0;
    while i < |lines|
      invariant 0 <= i <= |lines|
      invariant r == out + lines[..i]
    {
      r := r + [lines[i]];
      i := i + 1;
    }
    assert lines[..|lines|] == lines;
  }

  /** The lines written for each item in turn, `render` giving the lines of one
      item: the loop `for x in items { write render(x) }`. */
  function Emit<T>(render: T -> seq<string>, items: seq<T>): seq<string>
    decreases |items|
  {
    if items == [] then [] else Emit(render, items[..|items| - 1]) + render(items[|items| - 1])
  }

  /** One more item writes its lines after those already written. */
  lemma EmitNext<T>(render: T -> seq<string>, items: seq<T>, i: nat)
    requires i < |items|
    ensures Emit(render, items[..i + 1]) == Emit(render, items[..i]) + render(items[i])
  {
    assert items[..i + 1][..i] == items[..i];
  }

  /** The lines of a concatenation are the lines of each part, in order. */
  lemma {:induction false} EmitAppend<T>(render: T -> seq<string>, a: seq<T>, b: seq<T>)
    ensures Emit(render, a + b) == Emit(render, a) + Emit(render, b)
    decreases |b|
  {
    if b == [] {
      assert a + b == a;
    } else {
      var n := |b| - 1;
      EmitAppend(render, a, b[..n]);
      assert (a + b)[..|a + b| - 1] == a + b[..n];
      assert (a + b)[|a + b| - 1] == b[n];
    }
  }

  /** The lines of item `a` come right after those of the items before it. */
  lemma EmitAt<T>(render: T -> seq<string>, items: seq<T>, a: nat)
    requires a < |items|
    ensures var at := |Emit(render, items[..a])|; var own := render(items[a]);
      at + |own| <= |Emit(render, items)| && Emit(render, items)[at..at + |own|] == own
  {
    var rest := items[a + 1..];
    assert items == items[..a + 1] + rest;
    EmitNext(render, items, a);
    EmitAppend(render, items[..a + 1], rest);
    var at := |Emit(render, items[..a])|;
    var own := render(items[a]);
    assert Emit(render, items)[at..at + |own|] == Emit(render, items[..a + 1])[at..];
  }

  /** Line `i` is line `k` of the lines of item `a`. */
  lemma {:induction false} EmitSource<T>(render: T -> seq<string>, items: seq<T>, i: nat) returns (a: nat, k: nat)
    requires i < |Emit(render, items)|
    ensures a < |items| && k < |render(items[a])|
    ensures i == |Emit(render, items[..a])| + k
    ensures Emit(render, items)[i] == render(items[a])[k]
    decreases |items|
  {
    var n := |items| - 1;
    var init := items[..n];
    var head := Emit(render, init);
    if i < |head| {
      a, k := EmitSource(render, init, i);
      assert items[..a] == init[..a] && items[a] == init[a];
    } else {
      a, k := n, i - |head|;
    }
  }

  /** Items that render alike write alike: how `render` reads an item is all
      that matters. */
  lemma {:induction false} EmitAlike<S, T>(r1: S -> seq<string>, xs: seq<S>, r2: T -> seq<string>, ys: seq<T>)
    requires |xs| == |ys|
    requires forall a :: 0 <= a < |xs| ==> r1(xs[a]) == r2(ys[a])
    ensures Emit(r1, xs) == Emit(r2, ys)
    decreases |xs|
  {
    if xs != [] {
      var n := |xs| - 1;
      EmitAlike(r1, xs[..n], r2, ys[..n]);
    }
  }

  /** A slice of the middle part of a three-part concatenation. */
  lemma SliceMiddle<U>(head: seq<U>, middle: seq<U>, tail: seq<U>, i: nat, n: nat)
    requires i + n <= |middle|
    ensures (head + middle + tail)[|head| + i..|head| + i + n] == middle[i..i + n]
  {
    var all := head + middle + tail;
    var lhs := all[|head| + i..|head| + i + n];
    var rhs := middle[i..i + n];
    forall k | 0 <= k < n ensures lhs[k] == rhs[k] {
      assert all[|head| + i + k] == middle[i + k];
    }
    assert lhs == rhs;
  }

  /** The items `keep` selects, in order. */
  function Filter<T>(keep: T -> bool, items: seq<T>): (r: seq<T>)
    ensures |r| <= |items|
    ensures forall k :: 0 <= k < |r| ==> keep(r[k]) && r[k] in items
    decreases |items|
  {
    if items == [] then []
    else Filter(keep, items[..|items| - 1]) + (if keep(items[|items| - 1]) then [items[|items| - 1]] else [])
  }

  /** What holds of every item holds of every item kept. */
  lemma FilterKeeps<T>(keep: T -> bool, items: seq<T>, holds: T -> bool)
    requires forall a :: 0 <= a < |items| ==> holds(items[a])
    ensures forall k :: 0 <= k < |Filter(keep, items)| ==> holds(Filter(keep, items)[k])
  {
    var r := Filter(keep, items);
    forall k | 0 <= k < |r| ensures holds(r[k]) {
      var a :| 0 <= a < |items| && items[a] == r[k];
    }
  }

  /** Items that write nothing can be left out. */
  lemma {:induction false} EmitSkips<T>(render: T -> seq<string>, keep: T -> bool, items: seq<T>)
    requires forall x :: !keep(x) ==> render(x) == []
    ensures Emit(render, items) == Emit(render, Filter(keep, items))
    decreases |items|
  {
    if items != [] {
      var n := |items| - 1;
      var init := items[..n];
      EmitSkips(render, keep, init);
      var before := Filter(keep, init);
      if keep(items[n]) {
        EmitAppend(render, before, [items[n]]);
        assert Emit(render, [items[n]]) == render(items[n]) by {
          assert [items[n]][..0] == [];
        }
      } else {
        assert Filter(keep, items) == before;
        assert render(items[n]) == [];
        assert Emit(render, items) == Emit(render, init) + [];
      }
    }
  }

  /** Items that write `width` lines each write `width` lines per item, so
      the `k`-th item's lines start at line `width * k`. */
  lemma {:induction false} EmitUniform<T>(render: T -> seq<string>, width: nat, items: seq<T>)
    requires forall k :: 0 <= k < |items| ==> |render(items[k])| == width
    ensures |Emit(render, items)| == width * |items|
    ensures forall k :: 0 <= k <= |items| ==> |Emit(render, items[..k])| == width * k
    decreases |items|
  {
    if items != [] {
      var n := |items| - 1;
      var init := items[..n];
      EmitUniform(render, width, init);
      assert |Emit(render, items)| == |Emit(render, init)| + |render(items[n])|;
      MulNext(width, n);
      forall k | 0 <= k <= |items| ensures |Emit(render, items[..k])| == width * k {
        if k <= n {
          assert items[..k] == init[..k];
        } else {
          assert items[..k] == items;
        }
      }
    }
  }

  /** One more block of `width` lines. */
  lemma MulNext(width: nat, n: nat)
    ensures width * n + width == width * (n + 1)
  {
  }
}
