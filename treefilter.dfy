/**
 * The search filter of the signal tree menu (viewmodel/helpers/tree_menu_search_filter.py).
 *
 * A row of the tree model is kept visible when its own text matches the filter
 * or when any row below it, at any depth, matches. The source decides this with
 * an explicit stack rather than recursion; FilterAcceptsRow below keeps that loop
 * and is proved equal to the recursive definition SubtreeMatches, which in turn
 * is proved equal to a path-based reference definition (SomeNodeMatches).
 */
module TreeFilter {
  import opened Wrappers

  /** One row of the item model: its display text and its child rows, in row order. */
  datatype Node = Node(text: string, children: seq<Node>)

  /** The filter's case-insensitive regular expression, abstracted as a predicate on display text. */
  type Matcher = string -> bool

  /** True iff `n` itself or some row below it, at any depth, matches. */
  predicate SubtreeMatches(n: Node, matches: Matcher)
  {
    matches(n.text) || exists i :: 0 <= i < |n.children| && SubtreeMatches(n.children[i], matches)
  }

  /** True iff some node of the forest `s` has a matching subtree. */
  predicate AnyMatches(s: seq<Node>, matches: Matcher)
  {
    exists i :: 0 <= i < |s| && SubtreeMatches(s[i], matches)
  }

  /** Whether the proxy model shows row `row` below `parent`: the row must exist, and its subtree must match. */
  predicate Accepts(parent: Node, row: int, matches: Matcher)
  {
    0 <= row < |parent.children| && SubtreeMatches(parent.children[row], matches)
  }

  /** Number of nodes in the tree rooted at `n`. */
  function Size(n: Node): nat
  {
    1 + ForestSize(n.children)
  }

  /** Number of nodes in the forest `s`. */
  function ForestSize(s: seq<Node>): nat
  {
    if s == [] then 0 else ForestSize(s[..|s| - 1]) + Size(s[|s| - 1])
  }

  // ---------------------------------------------------------------------------
  // Reference definition: a descendant addressed by a path of row numbers.
  // ---------------------------------------------------------------------------

  /** The node reached from `n` by following the child rows listed in `path`, if they all exist. */
  function At(n: Node, path: seq<nat>): Option<Node>
    decreases |path|
  {
    if path == [] then Some(n)
    else if path[0] < |n.children| then At(n.children[path[0]], path[1..])
    else None
  }

  /** Some node of the tree rooted at `n` (the root included) has text that matches. */
  ghost predicate SomeNodeMatches(n: Node, matches: Matcher)
  {
    exists path :: At(n, path).Some? && matches(At(n, path).value.text)
  }

  lemma {:induction false} PathMatchGivesSubtreeMatch(n: Node, path: seq<nat>, matches: Matcher)
    requires At(n, path).Some? && matches(At(n, path).value.text)
    ensures SubtreeMatches(n, matches)
    decreases |path|
  {
    if path != [] {
      var i := path[0];
      PathMatchGivesSubtreeMatch(n.children[i], path[1..], matches);
    }
  }

  lemma {:induction false} SubtreeMatchGivesPath(n: Node, matches: Matcher) returns (path: seq<nat>)
    requires SubtreeMatches(n, matches)
    ensures At(n, path).Some? && matches(At(n, path).value.text)
  {
    if matches(n.text) {
      path := [];
    } else {
      var i :| 0 <= i < |n.children| && SubtreeMatches(n.children[i], matches);
      var p := SubtreeMatchGivesPath(n.children[i], matches);
      path := [i] + p;
      assert path[1..] == p;
    }
  }

  /** The recursive definition agrees with the path-based one: a subtree matches iff some node in it matches. */
  lemma SubtreeMatchesIffSomeNode(n: Node, matches: Matcher)
    ensures SubtreeMatches(n, matches) <==> SomeNodeMatches(n, matches)
  {
    if SubtreeMatches(n, matches) {
      var p := SubtreeMatchGivesPath(n, matches);
    }
    if SomeNodeMatches(n, matches) {
      var p :| At(n, p).Some? && matches(At(n, p).value.text);
      PathMatchGivesSubtreeMatch(n, p, matches);
    }
  }

  /** Monotonicity: a row with an accepted child row is accepted too, so ancestors of matches stay visible. */
  lemma AcceptedChildKeepsParent(parent: Node, row: int, childRow: int, matches: Matcher)
    requires 0 <= row < |parent.children|
    requires Accepts(parent.children[row], childRow, matches)
    ensures Accepts(parent, row, matches)
  {
  }

  // ---------------------------------------------------------------------------
  // Facts about the stack used by the loop.
  // ---------------------------------------------------------------------------

  lemma {:induction false} AnyMatchesAppend(a: seq<Node>, b: seq<Node>, matches: Matcher)
    ensures AnyMatches(a + b, matches) <==> AnyMatches(a, matches) || AnyMatches(b, matches)
  {
    if AnyMatches(a + b, matches) {
      var i :| 0 <= i < |a + b| && SubtreeMatches((a + b)[i], matches);
      if i < |a| {
        assert SubtreeMatches(a[i], matches);
      } else {
        assert SubtreeMatches(b[i - |a|], matches);
      }
    }
    if AnyMatches(a, matches) {
      var i :| 0 <= i < |a| && SubtreeMatches(a[i], matches);
      assert (a + b)[i] == a[i];
    }
    if AnyMatches(b, matches) {
      var i :| 0 <= i < |b| && SubtreeMatches(b[i], matches);
      assert (a + b)[|a| + i] == b[i];
    }
  }

  lemma {:induction false} ForestSizeAppend(a: seq<Node>, b: seq<Node>)
    ensures ForestSize(a + b) == ForestSize(a) + ForestSize(b)
    decreases |b|
  {
    if b != [] {
      var b' := b[..|b| - 1];
      assert (a + b)[..|a + b| - 1] == a + b';
      ForestSizeAppend(a, b');
    } else {
      assert a + b == a;
    }
  }

  /**
   * filterAcceptsRow: an out-of-range row is rejected; a row whose own text matches is
   * accepted at once; otherwise its descendants are popped from a stack until one matches.
   * `visits` counts the nodes popped from the stack (ghost: not part of the source).
   */
  method FilterAcceptsRow(parent: Node, row: int, matches: Matcher) returns (accepted: bool, ghost visits: nat)
    ensures accepted <==> Accepts(parent, row, matches)
    ensures 0 <= row < |parent.children| ==> visits <= Size(parent.children[row]) - 1
    ensures 0 <= row < |parent.children| && matches(parent.children[row].text) ==> visits == 0
  {
    visits := 0;
    if !(0 <= row < |parent.children|) {
      return false, visits;
    }
    var index := parent.children[row];
    if matches(index.text) {
      return true, visits;
    }

    var stack: seq<Node> := [];
    for i := 0 to |index.children|
      invariant stack == index.children[..i]
    {
      stack := stack + [index.children[i]];
    }
    assert index.children[..|index.children|] == index.children;

    while stack != []
      invariant AnyMatches(stack, matches) <==> SubtreeMatches(index, matches)
      invariant visits + ForestSize(stack) == ForestSize(index.children)
      decreases ForestSize(stack)
    {
      var current := stack[|stack| - 1];
      var rest := stack[..|stack| - 1];
      assert stack == rest + [current];
      AnyMatchesAppend(rest, [current], matches);
      assert AnyMatches([current], matches) <==> SubtreeMatches(current, matches) by {
        assert [current][0] == current;
      }
      stack := rest;
      visits := visits + 1;
      if matches(current.text) {
        return true, visits;
      }
      for i := 0 to |current.children|
        invariant stack == rest + current.children[..i]
      {
        stack := stack + [current.children[i]];
      }
      assert current.children[..|current.children|] == current.children;
      AnyMatchesAppend(rest, current.children, matches);
      ForestSizeAppend(rest, current.children);
    }
    return false, visits;
  }
}
