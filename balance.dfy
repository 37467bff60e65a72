/**
 * The rebalancing step of Delete's fix-up loop (tree.go:350-369) on shapes:
 * the single rotations of leftRotate/rightRotate (tree.go:161-206), the
 * four-way choice between R, L, LR and RL, and the facts that make the
 * loop terminate.
 */
module Balance {
  import opened Util
  import opened PeerNode
  import opened Shapes
  import opened Surgery

  /** leftRotate on shapes: the right child y takes x's place and x becomes y's left child. */
  function RotL(t: Shape): (u: Shape)
    requires t.Node? && t.right.Node?
    ensures u.Node? && u.key == t.right.key && u.left.Node? && u.left.key == t.key
  {
    var y := t.right;
    Node(y.key, Node(t.key, t.left, y.left), y.right)
  }

  /** rightRotate on shapes: the mirror image of RotL. */
  function RotR(t: Shape): (u: Shape)
    requires t.Node? && t.left.Node?
    ensures u.Node? && u.key == t.left.key && u.right.Node? && u.right.key == t.key
  {
    var y := t.left;
    Node(y.key, y.left, Node(t.key, y.right, t.right))
  }

  /** The four rotation cases of the fix-up loop, tested in the order tree.go tests them. */
  datatype Case = R | L | LR | RL | NoRotation

  function CaseOf(t: Shape): Case
  {
    if t.Nil? then NoRotation
    else if BF(t) > 1 && BF(t.left) >= 0 then R
    else if BF(t) < -1 && BF(t.right) <= 0 then L
    else if BF(t) > 1 && BF(t.left) < 0 then LR
    else if BF(t) < -1 && BF(t.right) > 0 then RL
    else NoRotation
  }

  /** A rotation fires only on a node whose balance factor exceeds 1 in absolute value. */
  lemma CaseOfUnbalanced(t: Shape)
    ensures CaseOf(t) != NoRotation <==> Unbalanced(t)
    ensures CaseOf(t) == R || CaseOf(t) == LR ==> t.left.Node? && BF(t) > 1
    ensures CaseOf(t) == L || CaseOf(t) == RL ==> t.right.Node? && BF(t) < -1
    ensures CaseOf(t) == LR ==> t.left.right.Node?
    ensures CaseOf(t) == RL ==> t.right.left.Node?
  {
  }

  /** The subtree the fix-up leaves in place of t. */
  function FixStep(t: Shape): Shape
  {
    match CaseOf(t)
    case R => CaseOfUnbalanced(t); RotR(t)
    case L => CaseOfUnbalanced(t); RotL(t)
    case LR => CaseOfUnbalanced(t); RotR(Node(t.key, RotL(t.left), t.right))
    case RL => CaseOfUnbalanced(t); RotL(Node(t.key, t.left, RotR(t.right)))
    case NoRotation => t
  }

  // ------------------------------------------------------------ keys

  lemma RotLKeys(t: Shape)
    requires t.Node? && t.right.Node?
    ensures Keys(RotL(t)) == Keys(t)
    ensures Distinct(t) ==> Distinct(RotL(t))
  {
    var x, A, y := t.key, t.left, t.right;
    RotateDistinct(x, A, y.key, y.left, y.right);
  }

  lemma RotRKeys(t: Shape)
    requires t.Node? && t.left.Node?
    ensures Keys(RotR(t)) == Keys(t)
    ensures Distinct(t) ==> Distinct(RotR(t))
  {
    var x, y, C := t.key, t.left, t.right;
    RotateDistinct(y.key, y.left, x, y.right, C);
  }

  /** Node(x, A, Node(y, B, C)) and Node(y, Node(x, A, B), C) hold the same keys, each once or not. */
  lemma RotateDistinct(x: int, A: Shape, y: int, B: Shape, C: Shape)
    ensures Keys(Node(x, A, Node(y, B, C))) == Keys(Node(y, Node(x, A, B), C))
    ensures Distinct(Node(x, A, Node(y, B, C))) <==> Distinct(Node(y, Node(x, A, B), C))
  {
    var kA, kB, kC := Keys(A), Keys(B), Keys(C);
    assert Keys(Node(y, B, C)) == {y} + kB + kC;
    assert Keys(Node(x, A, B)) == {x} + kA + kB;
    assert Distinct(Node(x, A, Node(y, B, C))) <==>
      x != y && x !in kA && x !in kB && x !in kC && y !in kA && y !in kB && y !in kC
      && kA !! kB && kA !! kC && kB !! kC && Distinct(A) && Distinct(B) && Distinct(C);
    assert Distinct(Node(y, Node(x, A, B), C)) <==>
      x != y && x !in kA && x !in kB && x !in kC && y !in kA && y !in kB && y !in kC
      && kA !! kB && kA !! kC && kB !! kC && Distinct(A) && Distinct(B) && Distinct(C);
  }

  /** The fix-up step rearranges a subtree without adding or losing a node. */
  lemma FixStepKeys(t: Shape)
    ensures Keys(FixStep(t)) == Keys(t)
    ensures Distinct(t) ==> Distinct(FixStep(t))
    ensures CaseOf(t) == NoRotation <==> FixStep(t) == t
  {
    CaseOfUnbalanced(t);
    match CaseOf(t)
    case R => RotRKeys(t);
    case L => RotLKeys(t);
    case LR =>
      RotLKeys(t.left);
      RotRKeys(Node(t.key, RotL(t.left), t.right));
    case RL =>
      RotRKeys(t.right);
      RotLKeys(Node(t.key, t.left, RotR(t.right)));
    case NoRotation =>
  }

  // ------------------------------------------------------------ termination

  /**
   * A single right rotation of a left-heavy node lowers the sum of heights,
   * or keeps it and leaves a node that is no longer out of balance.
   */
  lemma RotRMeasure(t: Shape)
    requires CaseOf(t) == R
    ensures SumH(RotR(t)) < SumH(t) || (SumH(RotR(t)) == SumH(t) && !Unbalanced(RotR(t)))
  {
    CaseOfUnbalanced(t);
    var x, y, C := t.key, t.left, t.right;
    var A, B := y.left, y.right;
    var a, b, c := Height(A), Height(B), Height(C);
    assert Height(y) == 1 + a && a >= b;
    assert c <= a - 1;
    assert Height(t) == a + 2;
    var x' := Node(x, B, C);
    assert Height(x') == 1 + Max(b, c) && Height(x') <= a + 1;
  }

  lemma RotLMeasure(t: Shape)
    requires CaseOf(t) == L
    ensures SumH(RotL(t)) < SumH(t) || (SumH(RotL(t)) == SumH(t) && !Unbalanced(RotL(t)))
  {
    CaseOfUnbalanced(t);
    var x, A, y := t.key, t.left, t.right;
    var B, C := y.left, y.right;
    var a, b, c := Height(A), Height(B), Height(C);
    assert Height(y) == 1 + c && c >= b;
    assert a <= c - 1;
    assert Height(t) == c + 2;
    var x' := Node(x, A, B);
    assert Height(x') == 1 + Max(a, b) && Height(x') <= c + 1;
  }

  /** A double rotation always lowers the sum of heights. */
  lemma LRMeasure(t: Shape)
    requires CaseOf(t) == LR
    ensures SumH(FixStep(t)) < SumH(t)
  {
    CaseOfUnbalanced(t);
    var x, y, D := t.key, t.left, t.right;
    var A, z := y.left, y.right;
    var B, C := z.left, z.right;
    var m := Height(z);
    assert Height(A) < m && Height(y) == m + 1 && Height(t) == m + 2;
    assert Height(D) <= m - 1 && Height(B) <= m - 1 && Height(C) <= m - 1;
    var y', x' := Node(y.key, A, B), Node(x, C, D);
    assert FixStep(t) == Node(z.key, y', x');
    assert Height(y') <= m && Height(x') <= m;
    assert SumH(z) == m + SumH(B) + SumH(C);
    assert SumH(y) == (m + 1) + SumH(A) + SumH(z);
    assert SumH(t) == (m + 2) + (m + 1) + m + SumH(A) + SumH(B) + SumH(C) + SumH(D);
    assert SumH(FixStep(t)) == Height(FixStep(t)) + Height(y') + Height(x') + SumH(A) + SumH(B) + SumH(C) + SumH(D);
  }

  lemma RLMeasure(t: Shape)
    requires CaseOf(t) == RL
    ensures SumH(FixStep(t)) < SumH(t)
  {
    CaseOfUnbalanced(t);
    var x, D, y := t.key, t.left, t.right;
    var z, A := y.left, y.right;
    var B, C := z.left, z.right;
    var m := Height(z);
    assert Height(A) < m && Height(y) == m + 1 && Height(t) == m + 2;
    assert Height(D) <= m - 1 && Height(B) <= m - 1 && Height(C) <= m - 1;
    var x', y' := Node(x, D, B), Node(y.key, C, A);
    assert FixStep(t) == Node(z.key, x', y');
    assert Height(x') <= m && Height(y') <= m;
    assert SumH(z) == m + SumH(B) + SumH(C);
    assert SumH(y) == (m + 1) + SumH(A) + SumH(z);
    assert SumH(t) == (m + 2) + (m + 1) + m + SumH(A) + SumH(B) + SumH(C) + SumH(D);
    assert SumH(FixStep(t)) == Height(FixStep(t)) + Height(x') + Height(y') + SumH(A) + SumH(B) + SumH(C) + SumH(D);
  }

  /**
   * The fix-up loop's measure: a rotation either lowers the sum of heights of
   * the subtree it rearranges, or keeps it and leaves that subtree's root in
   * balance, so that the next visit of the same position moves upwards.
   */
  lemma FixStepMeasure(t: Shape)
    requires CaseOf(t) != NoRotation
    ensures SumH(FixStep(t)) < SumH(t) || (SumH(FixStep(t)) == SumH(t) && !Unbalanced(FixStep(t)))
    ensures Unbalanced(t)
  {
    CaseOfUnbalanced(t);
    match CaseOf(t)
    case R => RotRMeasure(t);
    case L => RotLMeasure(t);
    case LR => LRMeasure(t);
    case RL => RLMeasure(t);
  }

  // ------------------------------------------------------------ the walk

  /**
   * The fix-up loop of Delete (tree.go:350-369) on shapes: starting at c,
   * rearrange the subtree at c if it is out of balance and carry on at
   * its new root, otherwise move to c's parent; stop above the root.
   */
  function FixUp(t: Shape, c: int): (r: Shape)
    requires Distinct(t)
    ensures Keys(r) == Keys(t) && Distinct(r)
    decreases if c == NULL then 0 else |Anc(t, c)|, SumH(Sub(t, c)), if Unbalanced(Sub(t, c)) then 1 else 0
  {
    if c == NULL || c !in Keys(t) then t
    else if CaseOf(Sub(t, c)) == NoRotation then
      ParentStep(t, c);
      FixUp(t, ParentOf(t, c, NULL))
    else
      RotateStep(t, c);
      var u := FixStep(Sub(t, c));
      FixUp(Replace(t, c, u), u.key)
  }

  /** Moving to the parent shortens the ancestor path. */
  lemma ParentStep(t: Shape, c: int)
    requires Distinct(t) && c in Keys(t)
    ensures var p := ParentOf(t, c, NULL);
      p == NULL || (p in Keys(t) && |Anc(t, p)| < |Anc(t, c)|)
  {
    AncParent(t, c, NULL);
    AncFacts(t, c);
    if c != t.key {
      var p := ParentOf(t, c, NULL);
      assert Anc(t, p) < Anc(t, c);
    }
  }

  /**
   * Rearranging the subtree at c keeps the tree's keys and its
   * distinctness, puts the new subtree root at c's depth, leaves the
   * subtree below it as the rotation built it and lowers the measure.
   */
  lemma RotateStep(t: Shape, c: int)
    requires Distinct(t) && c in Keys(t) && CaseOf(Sub(t, c)) != NoRotation
    ensures var s := Sub(t, c); var u := FixStep(s); var t' := Replace(t, c, u);
      u.Node? && Keys(t') == Keys(t) && Distinct(t') && u.key in Keys(t)
      && Sub(t', u.key) == u && |Anc(t', u.key)| == |Anc(t, c)| > 0
      && (SumH(u) < SumH(s) || (SumH(u) == SumH(s) && !Unbalanced(u) && Unbalanced(s)))
  {
    var s := Sub(t, c);
    SubFacts(t, c);
    CaseOfUnbalanced(s);
    FixStepKeys(s);
    FixStepMeasure(s);
    RearrangeAt(t, c, FixStep(s));
  }

  /** Any rearrangement u of the keys of the subtree at c can take its place. */
  lemma RearrangeAt(t: Shape, c: int, u: Shape)
    requires Distinct(t) && c in Keys(t) && u.Node? && Distinct(u) && Keys(u) == Keys(Sub(t, c))
    ensures var t' := Replace(t, c, u);
      Keys(t') == Keys(t) && Distinct(t') && u.key in Keys(t)
      && Sub(t', u.key) == u && |Anc(t', u.key)| == |Anc(t, c)| > 0
  {
    SubFacts(t, c);
    ReplaceKeys(t, c, u);
    ReplaceDistinct(t, c, u);
    SubReplaceRoot(t, c, u);
    AncReplaceIn(t, c, u, u.key);
    AncDepth(t, c, u.key);
  }

  /** A node y of the subtree at c, put at the root of that subtree, sits at c's depth. */
  lemma AncDepth(t: Shape, c: int, y: int)
    requires Distinct(t) && c in Keys(t) && y in Keys(Sub(t, c))
    ensures |(Anc(t, c) - {c}) + {y}| == |Anc(t, c)| > 0
  {
    AncAbove(t, c);
    AncFacts(t, c);
    var A := Anc(t, c) - {c};
    assert y !in A;
    assert Anc(t, c) == A + {c};
  }
}
