/**
 * Gamepad buttons, the 15-slot button→command table both revisions use
 * (`Actions`, src/command.rs:58-75 and src/main.rs:604-651), and the split
 * of its prompts into a left and a right group (src/ui/mod.rs:52-120).
 *
 * The table is generic in the command type, so the split revision and the
 * older one share one definition; `none` is each revision's `Command::None`.
 */
module Buttons {
  import opened Wrappers

  /** gilrs's `Button`. */
  datatype Button =
    | South | East | North | West | C | Z
    | LeftTrigger | LeftTrigger2 | RightTrigger | RightTrigger2
    | Select | Start | Mode | LeftThumb | RightThumb
    | DPadUp | DPadDown | DPadLeft | DPadRight
    | Unknown

  datatype PromptPosition = Left | Right

  /** `button_prompt_position`: system buttons, thumbs and triggers on the left; d-pad and face buttons on the right. */
  function Position(b: Button): (p: PromptPosition)
    requires b != Unknown
    ensures p == Left <==> b in {Select, Start, Mode, LeftThumb, RightThumb,
                                 LeftTrigger, LeftTrigger2, RightTrigger, RightTrigger2}
    ensures p == Right <==> b in {DPadUp, DPadDown, DPadLeft, DPadRight, South, East, North, West, C, Z}
  {
    match b
    case Select | Start | Mode | LeftThumb | RightThumb
      | LeftTrigger | LeftTrigger2 | RightTrigger | RightTrigger2 => Left
    case DPadUp | DPadDown | DPadLeft | DPadRight | South | East | North | West | C | Z => Right
  }

  /** `Actions`: one command per bindable button. */
  datatype Actions<Cmd> = Actions(
    a: Cmd, b: Cmd, x: Cmd, y: Cmd,
    l1: Cmd, l2: Cmd, r1: Cmd, r2: Cmd,
    up: Cmd, down: Cmd, left: Cmd, right: Cmd,
    select: Cmd, start: Cmd, home: Cmd)

  /** `Actions::default()`: every slot unbound. */
  function Empty<Cmd>(none: Cmd): (t: Actions<Cmd>)
    ensures forall i :: 0 <= i < |Iter(t)| ==> Iter(t)[i].1 == none
  {
    Actions(none, none, none, none, none, none, none, none, none, none, none, none, none, none, none)
  }

  /** The buttons of the table, in iteration order. */
  const Bound: seq<Button> := [East, South, North, West, LeftTrigger, LeftTrigger2, RightTrigger,
                               RightTrigger2, DPadUp, DPadDown, DPadLeft, DPadRight, Select, Start, Mode]

  /** `Actions::iter()`: the fifteen (button, command) pairs in fixed order. */
  function Iter<Cmd>(t: Actions<Cmd>): (pairs: seq<(Button, Cmd)>)
    ensures |pairs| == |Bound| == 15
    ensures forall i :: 0 <= i < |pairs| ==> pairs[i].0 == Bound[i]
  {
    [(East, t.a), (South, t.b), (North, t.x), (West, t.y),
     (LeftTrigger, t.l1), (LeftTrigger2, t.l2), (RightTrigger, t.r1), (RightTrigger2, t.r2),
     (DPadUp, t.up), (DPadDown, t.down), (DPadLeft, t.left), (DPadRight, t.right),
     (Select, t.select), (Start, t.start), (Mode, t.home)]
  }

  /** The bound buttons are pairwise distinct and do not include `Unknown`, `C`, `Z` or the thumbs. */
  lemma BoundDistinct()
    ensures forall i, j :: 0 <= i < j < |Bound| ==> Bound[i] != Bound[j]
    ensures Unknown !in Bound && C !in Bound && Z !in Bound && LeftThumb !in Bound && RightThumb !in Bound
  {
  }

  /** The command of the first pair whose button is `b`. */
  function Find<Cmd(==)>(pairs: seq<(Button, Cmd)>, b: Button): (r: Option<Cmd>)
    ensures r.None? <==> forall i :: 0 <= i < |pairs| ==> pairs[i].0 != b
    ensures r.Some? ==> exists i :: 0 <= i < |pairs| && pairs[i] == (b, r.value) &&
                          forall k :: 0 <= k < i ==> pairs[k].0 != b
    decreases |pairs|
  {
    if |pairs| == 0 then None
    else if pairs[0].0 == b then
      assert pairs[0] == (b, pairs[0].1);
      Some(pairs[0].1)
    else
      var r := Find(pairs[1..], b);
      assert forall i :: 0 <= i < |pairs| - 1 ==> pairs[1..][i] == pairs[i + 1];
      if r.Some? then
        var j :| 0 <= j < |pairs| - 1 && pairs[1..][j] == (b, r.value) &&
                 forall k :: 0 <= k < j ==> pairs[1..][k].0 != b;
        assert pairs[j + 1] == (b, r.value);
        r
      else r
  }

  /** `Actions::get(b)`: the command bound to `b`, `none` for a button outside the table. */
  function Get<Cmd(==)>(t: Actions<Cmd>, b: Button, none: Cmd): Cmd {
    Find(Iter(t), b).GetOr(none)
  }

  /** `get` agrees with `iter`: each listed button yields exactly its listed command. */
  lemma GetIter<Cmd>(t: Actions<Cmd>, i: nat, none: Cmd)
    requires i < 15
    ensures Get(t, Iter(t)[i].0, none) == Iter(t)[i].1
  {
    BoundDistinct();
    var pairs := Iter(t);
    var r := Find(pairs, pairs[i].0);
    var j :| 0 <= j < |pairs| && pairs[j] == (pairs[i].0, r.value) &&
             forall k :: 0 <= k < j ==> pairs[k].0 != pairs[i].0;
    assert j == i;
  }

  /** A button outside the table reads as unbound. */
  lemma GetUnbound<Cmd>(t: Actions<Cmd>, b: Button, none: Cmd)
    requires b !in Bound
    ensures Get(t, b, none) == none
  {
  }

  /** The field a button names, read straight off the struct: the reference for `get`. */
  function Slot<Cmd>(t: Actions<Cmd>, b: Button, none: Cmd): Cmd {
    match b
    case East => t.a
    case South => t.b
    case North => t.x
    case West => t.y
    case LeftTrigger => t.l1
    case LeftTrigger2 => t.l2
    case RightTrigger => t.r1
    case RightTrigger2 => t.r2
    case DPadUp => t.up
    case DPadDown => t.down
    case DPadLeft => t.left
    case DPadRight => t.right
    case Select => t.select
    case Start => t.start
    case Mode => t.home
    case _ => none
  }

  /** Where a bound button sits in `Bound`. */
  function BoundIndex(b: Button): (i: nat)
    requires b in Bound
    ensures i < |Bound| && Bound[i] == b
  {
    match b
    case East => 0
    case South => 1
    case North => 2
    case West => 3
    case LeftTrigger => 4
    case LeftTrigger2 => 5
    case RightTrigger => 6
    case RightTrigger2 => 7
    case DPadUp => 8
    case DPadDown => 9
    case DPadLeft => 10
    case DPadRight => 11
    case Select => 12
    case Start => 13
    case Mode => 14
  }

  /** The pair `iter` lists for a bound button carries that button's field. */
  lemma IterSlot<Cmd>(t: Actions<Cmd>, b: Button, none: Cmd)
    requires b in Bound
    ensures Iter(t)[BoundIndex(b)] == (b, Slot(t, b, none))
  {
  }

  /** Looking a button up by scanning `iter` is reading its field. */
  lemma GetSlot<Cmd>(t: Actions<Cmd>, b: Button, none: Cmd)
    ensures Get(t, b, none) == Slot(t, b, none)
  {
    if b in Bound {
      var i := BoundIndex(b);
      GetIter(t, i, none);
      IterSlot(t, b, none);
    } else {
      GetUnbound(t, b, none);
    }
  }

  // ---------------------------------------------------------------------
  // Prompt bar
  // ---------------------------------------------------------------------

  /** The elements of `s` that satisfy `p`, in order, built from the back. */
  function Filter<T>(s: seq<T>, p: T -> bool): (r: seq<T>)
    ensures forall i :: 0 <= i < |r| ==> p(r[i]) && r[i] in s
    decreases |s|
  {
    if |s| == 0 then []
    else if p(s[|s| - 1]) then Filter(s[..|s| - 1], p) + [s[|s| - 1]]
    else Filter(s[..|s| - 1], p)
  }

  /** Appending one element extends the filtered list by it exactly when it satisfies `p`. */
  lemma {:induction false} FilterCons<T>(x: T, s: seq<T>, p: T -> bool)
    ensures Filter([x] + s, p) == (if p(x) then [x] else []) + Filter(s, p)
    decreases |s|
  {
    if |s| > 0 {
      var t := [x] + s;
      assert t[..|t| - 1] == [x] + s[..|s| - 1];
      assert t[|t| - 1] == s[|s| - 1];
      FilterCons(x, s[..|s| - 1], p);
    } else {
      assert ([x] + s)[..0] == [];
    }
  }

  /**
   * `Iterator::partition`: one pass, each element to the first or second
   * list. The first list is the elements that satisfy `p` and the second
   * those that do not, each in their original order, and together they
   * are a permutation of `s`.
   */
  function Partition<T>(s: seq<T>, p: T -> bool): (r: (seq<T>, seq<T>))
    ensures r.0 == Filter(s, p)
    ensures r.1 == Filter(s, x => !p(x))
    ensures multiset(r.0) + multiset(r.1) == multiset(s)
    decreases |s|
  {
    if |s| == 0 then ([], [])
    else
      var rest := Partition(s[1..], p);
      assert s == [s[0]] + s[1..];
      FilterCons(s[0], s[1..], p);
      FilterCons(s[0], s[1..], x => !p(x));
      if p(s[0]) then ([s[0]] + rest.0, rest.1) else (rest.0, [s[0]] + rest.1)
  }

  /** The pairs whose command shows a prompt, in order: the `filter` step. */
  function Shown<Cmd>(s: seq<(Button, Cmd)>, show: Cmd -> bool): seq<(Button, Cmd)>
    decreases |s|
  {
    if |s| == 0 then []
    else if show(s[0].1) then [s[0]] + Shown(s[1..], show)
    else Shown(s[1..], show)
  }

  predicate IsLeft<Cmd>(pair: (Button, Cmd)) {
    pair.0 != Unknown && Position(pair.0) == Left
  }

  /** `button_prompts`: the shown pairs, partitioned by the button's position. */
  function Prompts<Cmd>(t: Actions<Cmd>, show: Cmd -> bool): (seq<(Button, Cmd)>, seq<(Button, Cmd)>) {
    Partition(Shown(Iter(t), show), IsLeft)
  }

  /** The reference: the shown pairs whose button sits at `pos`, in order. */
  function ShownAt<Cmd>(s: seq<(Button, Cmd)>, show: Cmd -> bool, pos: PromptPosition): (r: seq<(Button, Cmd)>)
    ensures forall i :: 0 <= i < |r| ==> r[i] in s && show(r[i].1) && r[i].0 != Unknown && Position(r[i].0) == pos
    decreases |s|
  {
    if |s| == 0 then []
    else if show(s[0].1) && s[0].0 != Unknown && Position(s[0].0) == pos then [s[0]] + ShownAt(s[1..], show, pos)
    else ShownAt(s[1..], show, pos)
  }

  lemma {:induction false} PartitionShown<Cmd>(s: seq<(Button, Cmd)>, show: Cmd -> bool)
    requires forall i :: 0 <= i < |s| ==> s[i].0 != Unknown
    ensures Partition(Shown(s, show), IsLeft) == (ShownAt(s, show, Left), ShownAt(s, show, Right))
    decreases |s|
  {
    if |s| > 0 {
      PartitionShown(s[1..], show);
      if show(s[0].1) {
        assert Shown(s, show) == [s[0]] + Shown(s[1..], show);
        assert Shown(s, show)[1..] == Shown(s[1..], show);
      }
    }
  }

  /**
   * The left group is exactly the shown pairs with a left-hand button, and
   * the right group the shown pairs with a right-hand button, each in
   * iteration order.
   */
  lemma PromptsSplit<Cmd>(t: Actions<Cmd>, show: Cmd -> bool)
    ensures Prompts(t, show) == (ShownAt(Iter(t), show, Left), ShownAt(Iter(t), show, Right))
  {
    BoundDistinct();
    PartitionShown(Iter(t), show);
  }

  /**
   * In iteration order the left-hand prompts are the four shoulder buttons
   * (positions 4 to 7) and the three system buttons (12 to 14); the face
   * buttons and the d-pad go right.
   */
  lemma PositionsInOrder(i: nat)
    requires i < |Bound|
    ensures Bound[i] != Unknown
    ensures Position(Bound[i]) == Left <==> 4 <= i < 8 || 12 <= i
  {
  }
}
