/**
 * Markup built by concatenation, as the page script builds it, and a decoder
 * that reads such markup back. The decoder exists to state what the markup
 * says: it recovers exactly the cells that were concatenated, provided no
 * cell text contains the closing tag (the script escapes nothing, so that
 * proviso is the whole story).
 */
module Markup {
  import opened Wrappers

  /** `p` occurs in `s` starting at index `i`. */
  predicate OccursAt(p: string, s: string, i: nat) {
    i + |p| <= |s| && s[i..i + |p|] == p
  }

  predicate Infix(p: string, s: string) {
    exists i: nat :: i <= |s| && OccursAt(p, s, i)
  }

  predicate StartsWith(s: string, p: string) {
    |p| <= |s| && s[..|p|] == p
  }

  lemma SplitConcat(a: string, b: string)
    ensures StartsWith(a + b, a) && (a + b)[|a|..] == b
  {
  }

  /** A closing tag does not start with an opening one: they differ at the `/`. */
  lemma CloseIsNotOpen(close: string, open: string)
    requires |close| > 1 && close[1] == '/' && |open| > 1 && open[1] != '/'
    ensures !StartsWith(close, open)
  {
  }

  /** The shape of a closing tag such as `</td>`: `<` only first, `>` only last. */
  predicate TagShaped(p: string) {
    |p| >= 2 && p[0] == '<' && p[|p| - 1] == '>' &&
    (forall i :: 1 <= i < |p| ==> p[i] != '<') &&
    (forall i :: 0 <= i < |p| - 1 ==> p[i] != '>')
  }

  /** The first index at or after `from` where `p` occurs in `s`. */
  function Find(p: string, s: string, from: nat): (r: Option<nat>)
    ensures r.Some? ==> from <= r.value && OccursAt(p, s, r.value)
    ensures r.Some? ==> forall k: nat :: from <= k < r.value ==> !OccursAt(p, s, k)
    ensures r.None? ==> forall k: nat :: from <= k ==> !OccursAt(p, s, k)
    decreases |s| - from
  {
    if from + |p| > |s| then None
    else if OccursAt(p, s, from) then Some(from)
    else Find(p, s, from + 1)
  }

  /** `open + x + close` for each item `x`, in order, concatenated. */
  function Elements(open: string, close: string, items: seq<string>): string {
    if |items| == 0 then ""
    else Elements(open, close, items[..|items| - 1]) + open + items[|items| - 1] + close
  }

  lemma ElementsSnoc(open: string, close: string, items: seq<string>, x: string)
    ensures Elements(open, close, items + [x]) == Elements(open, close, items) + open + x + close
  {
    assert (items + [x])[..|items|] == items;
  }

  lemma ElementsPrefixStep(open: string, close: string, items: seq<string>, j: nat)
    requires j < |items|
    ensures Elements(open, close, items[..j + 1]) == Elements(open, close, items[..j]) + open + items[j] + close
  {
    assert items[..j + 1] == items[..j] + [items[j]];
    ElementsSnoc(open, close, items[..j], items[j]);
  }

  lemma {:induction false} ElementsCons(open: string, close: string, x: string, items: seq<string>)
    ensures Elements(open, close, [x] + items) == open + x + close + Elements(open, close, items)
  {
    if |items| > 0 {
      var init := items[..|items| - 1];
      assert [x] + items == ([x] + init) + [items[|items| - 1]];
      ElementsSnoc(open, close, [x] + init, items[|items| - 1]);
      ElementsCons(open, close, x, init);
      ElementsSnoc(open, close, init, items[|items| - 1]);
      assert init + [items[|items| - 1]] == items;
    }
  }

  /**
   * Reads `open item close` as often as `s` allows, each item ending at the
   * first `close` after its `open`; gives the items and what is left.
   */
  function ParseItems(open: string, close: string, s: string): (seq<string>, string)
    requires |open| > 0
    decreases |s|
  {
    if StartsWith(s, open) then
      var t := s[|open|..];
      match Find(close, t, 0)
      case None => ([], s)
      case Some(j) =>
        var next := ParseItems(open, close, t[j + |close|..]);
        ([t[..j]] + next.0, next.1)
    else ([], s)
  }

  /** A tag-shaped `p` that is not in `a` first occurs in `a + p + b` right after `a`. */
  lemma FindClose(p: string, a: string, b: string)
    requires TagShaped(p) && !Infix(p, a)
    ensures Find(p, a + p + b, 0) == Some(|a|)
  {
    var s := a + p + b;
    assert OccursAt(p, s, |a|) by {
      assert s[|a|..|a| + |p|] == p;
    }
    forall k: nat | k < |a|
      ensures !OccursAt(p, s, k)
    {
      if k + |p| <= |a| {
        assert s[k..k + |p|] == a[k..k + |p|];
        assert !OccursAt(p, a, k);
      } else if k + |p| <= |s| {
        var m := |a| - k;
        assert s[k..k + |p|][m] == s[|a|] == '<';
        assert p[m] != '<';
      }
    }
  }

  /** Decoding the concatenation of elements gives back the items and the rest. */
  lemma {:induction false} ParseElements(open: string, close: string, items: seq<string>, rest: string)
    requires |open| > 0 && TagShaped(close)
    requires forall i :: 0 <= i < |items| ==> !Infix(close, items[i])
    requires !StartsWith(rest, open)
    ensures ParseItems(open, close, Elements(open, close, items) + rest) == (items, rest)
  {
    if |items| > 0 {
      var x, tail := items[0], items[1..];
      assert items == [x] + tail;
      ElementsCons(open, close, x, tail);
      var after := Elements(open, close, tail) + rest;
      var s := Elements(open, close, items) + rest;
      assert s == open + (x + close + after);
      assert StartsWith(s, open);
      var t := s[|open|..];
      assert t == x + close + after;
      FindClose(close, x, after);
      assert t[|x| + |close|..] == after;
      assert t[..|x|] == x;
      ParseElements(open, close, tail, rest);
      assert Find(close, t, 0) == Some(|x|);
      assert ParseItems(open, close, s) == ([x] + tail, rest);
    } else {
      assert Elements(open, close, items) + rest == rest;
    }
  }

  /**
   * A tag-shaped `p` that is in neither `a` nor `b` is not in `a + b` either,
   * when the seam falls before a `<` or after a `>`.
   */
  lemma NoInfixAcrossSeam(p: string, a: string, b: string)
    requires TagShaped(p) && !Infix(p, a) && !Infix(p, b)
    requires (|b| > 0 && b[0] == '<') || (|a| > 0 && a[|a| - 1] == '>')
    ensures !Infix(p, a + b)
  {
    var s := a + b;
    forall k: nat
      ensures !OccursAt(p, s, k)
    {
      if k + |p| <= |s| {
        if k + |p| <= |a| {
          assert s[k..k + |p|] == a[k..k + |p|];
          assert !OccursAt(p, a, k);
        } else if k >= |a| {
          assert s[k..k + |p|] == b[k - |a|..k - |a| + |p|];
          assert !OccursAt(p, b, k - |a|);
        } else if |b| > 0 && b[0] == '<' {
          var m := |a| - k;
          assert s[k..k + |p|][m] == b[0];
          assert p[m] != '<';
        } else {
          var m := |a| - k;
          assert s[k..k + |p|][m - 1] == a[|a| - 1];
          assert p[m - 1] != '>';
        }
      }
    }
  }

  /** A closing tag kept out of the items and the tags stays out of the elements. */
  lemma {:induction false} NoInfixInElements(p: string, open: string, close: string, items: seq<string>)
    requires TagShaped(p) && !Infix(p, open) && !Infix(p, close)
    requires |open| > 0 && open[0] == '<' && open[|open| - 1] == '>'
    requires |close| > 0 && close[0] == '<'
    requires forall i :: 0 <= i < |items| ==> !Infix(p, items[i])
    ensures !Infix(p, Elements(open, close, items))
  {
    if |items| > 0 {
      var init, x := items[..|items| - 1], items[|items| - 1];
      NoInfixInElements(p, open, close, init);
      var e := Elements(open, close, init);
      NoInfixAcrossSeam(p, e, open);
      NoInfixAcrossSeam(p, e + open, x);
      NoInfixAcrossSeam(p, e + open + x, close);
    }
  }
}
