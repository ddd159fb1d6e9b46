/** Extracted symbols (crates/codequery-core/src/symbol.rs). */
module Symbols {
  import opened Wrappers

  /** A relative path, as its components. */
  type Path = seq<string>

  /** A symbol kind, as the lower-case word it is displayed with. */
  type SymbolKind = w: string | w != [] && forall c :: c in w ==> 'a' <= c <= 'z' witness "function"

  datatype Visibility = Public | Private | Crate

  datatype Symbol = Symbol(
    name: string,
    kind: SymbolKind,
    file: Path,
    line: nat,
    column: nat,
    endLine: nat,
    visibility: Visibility,
    children: seq<Symbol>,
    doc: Option<string>,
    body: Option<string>,
    signature: Option<string>)

  /** All symbols of a forest, parents before children. */
  function Flatten(forest: seq<Symbol>): seq<Symbol> {
    if forest == [] then []
    else [forest[0]] + Flatten(forest[0].children) + Flatten(forest[1..])
  }

  /** `count_symbols_recursive`. */
  function CountRecursive(forest: seq<Symbol>): nat {
    if forest == [] then 0
    else CountRecursive(forest[..|forest| - 1]) + 1 + CountRecursive(forest[|forest| - 1].children)
  }

  lemma {:induction false} FlattenAppend(a: seq<Symbol>, b: seq<Symbol>)
    ensures Flatten(a + b) == Flatten(a) + Flatten(b)
  {
    if a == [] {
      assert a + b == b;
    } else {
      assert (a + b)[1..] == a[1..] + b;
      FlattenAppend(a[1..], b);
    }
  }

  lemma FlattenNext(forest: seq<Symbol>, i: nat)
    requires i < |forest|
    ensures Flatten(forest[..i + 1]) == Flatten(forest[..i]) + [forest[i]] + Flatten(forest[i].children)
  {
    assert forest[..i + 1] == forest[..i] + [forest[i]];
    FlattenAppend(forest[..i], [forest[i]]);
  }

  lemma {:induction false} FlattenLength(forest: seq<Symbol>)
    ensures |Flatten(forest)| == CountRecursive(forest)
  {
    if forest == [] {
    } else {
      var front, last := forest[..|forest| - 1], forest[|forest| - 1];
      assert forest == front + [last];
      FlattenAppend(front, [last]);
      FlattenLength(front);
      FlattenLength(last.children);
    }
  }

  // Pre-order, by the places of symbols.

  /** The place of a symbol: the index of its root, and then of a child on every level. */
  type Place = seq<nat>

  predicate IsPlace(forest: seq<Symbol>, p: Place) {
    p != [] && p[0] < |forest| && (|p| == 1 || IsPlace(forest[p[0]].children, p[1..]))
  }

  function SymbolAt(forest: seq<Symbol>, p: Place): Symbol
    requires IsPlace(forest, p)
  {
    if |p| == 1 then forest[p[0]] else SymbolAt(forest[p[0]].children, p[1..])
  }

  /** Parents come before their children, and earlier siblings, with all below them, before later ones. */
  predicate ComesBefore(p: Place, q: Place) {
    q != [] && (p == [] || p[0] < q[0] || (p[0] == q[0] && ComesBefore(p[1..], q[1..])))
  }

  /** The symbol is at the place. */
  predicate At(forest: seq<Symbol>, p: Place, s: Symbol) { IsPlace(forest, p) && SymbolAt(forest, p) == s }

  ghost predicate AllAt(forest: seq<Symbol>, places: seq<Place>, symbols: seq<Symbol>) {
    |places| == |symbols| && forall i :: 0 <= i < |places| ==> At(forest, places[i], symbols[i])
  }

  ghost predicate Complete(forest: seq<Symbol>, places: seq<Place>) {
    forall p :: IsPlace(forest, p) ==> p in places
  }

  predicate Ordered(places: seq<Place>) {
    forall i, j :: 0 <= i < j < |places| ==> ComesBefore(places[i], places[j])
  }

  /** The symbols are those at all the places of the forest, each once, in order. */
  ghost predicate IsPreorder(forest: seq<Symbol>, places: seq<Place>, symbols: seq<Symbol>) {
    AllAt(forest, places, symbols) && Complete(forest, places) && Ordered(places)
  }

  /** The place below the first symbol, seen from the forest. */
  function Lower(p: Place): (q: Place)
    ensures |q| == |p| + 1 && q[0] == 0 && q[1..] == p
  {
    [0] + p
  }

  /** The place among the other symbols, seen from the forest. */
  function Shift(p: Place): (q: Place)
    ensures |q| == |p| && (p != [] ==> q[0] == p[0] + 1 && q[1..] == p[1..])
  {
    if p == [] then [] else [p[0] + 1] + p[1..]
  }

  function LowerAll(ps: seq<Place>): (qs: seq<Place>)
    ensures |qs| == |ps| && forall i :: 0 <= i < |ps| ==> qs[i] == Lower(ps[i])
  {
    seq(|ps|, i requires 0 <= i < |ps| => Lower(ps[i]))
  }

  function ShiftAll(ps: seq<Place>): (qs: seq<Place>)
    ensures |qs| == |ps| && forall i :: 0 <= i < |ps| ==> qs[i] == Shift(ps[i])
  {
    seq(|ps|, i requires 0 <= i < |ps| => Shift(ps[i]))
  }

  function Joined(below: seq<Place>, others: seq<Place>): seq<Place> {
    [[0]] + LowerAll(below) + ShiftAll(others)
  }

  lemma {:induction false} Preorder(forest: seq<Symbol>) returns (places: seq<Place>)
    ensures IsPreorder(forest, places, Flatten(forest))
  {
    if forest == [] {
      places := [];
    } else {
      hide AllAt;
      hide Complete;
      hide Ordered;
      var below := Preorder(forest[0].children);
      var others := Preorder(forest[1..]);
      places := Joined(below, others);
      JoinedAt(forest, below, Flatten(forest[0].children), others, Flatten(forest[1..]));
      JoinedComplete(forest, below, others);
      NoneEmpty(forest[0].children, below, Flatten(forest[0].children));
      NoneEmpty(forest[1..], others, Flatten(forest[1..]));
      JoinedOrdered(below, others);
    }
  }

  lemma NoneEmpty(forest: seq<Symbol>, places: seq<Place>, symbols: seq<Symbol>)
    requires AllAt(forest, places, symbols)
    ensures forall i :: 0 <= i < |places| ==> places[i] != []
  {
    assert forall i :: 0 <= i < |places| ==> At(forest, places[i], symbols[i]);
  }

  lemma LowerAt(forest: seq<Symbol>, p: Place, s: Symbol)
    requires forest != [] && At(forest[0].children, p, s)
    ensures At(forest, Lower(p), s)
  {
  }

  lemma ShiftAt(forest: seq<Symbol>, p: Place, s: Symbol)
    requires forest != [] && At(forest[1..], p, s)
    ensures At(forest, Shift(p), s)
  {
  }

  lemma JoinedAt(forest: seq<Symbol>, below: seq<Place>, children: seq<Symbol>, others: seq<Place>, rest: seq<Symbol>)
    requires forest != [] && AllAt(forest[0].children, below, children) && AllAt(forest[1..], others, rest)
    ensures AllAt(forest, Joined(below, others), [forest[0]] + children + rest)
  {
    var places, symbols := Joined(below, others), [forest[0]] + children + rest;
    hide IsPlace;
    hide SymbolAt;
    hide At;
    FirstAt(forest);
    forall i | 0 <= i < |places|
      ensures At(forest, places[i], symbols[i])
    {
      if i == 0 {
      } else if i <= |below| {
        LowerAt(forest, below[i - 1], children[i - 1]);
      } else {
        ShiftAt(forest, others[i - 1 - |below|], rest[i - 1 - |below|]);
      }
    }
  }

  lemma FirstAt(forest: seq<Symbol>)
    requires forest != []
    ensures At(forest, [0], forest[0])
  {
  }

  lemma JoinedComplete(forest: seq<Symbol>, below: seq<Place>, others: seq<Place>)
    requires forest != [] && Complete(forest[0].children, below) && Complete(forest[1..], others)
    ensures Complete(forest, Joined(below, others))
  {
    forall p | IsPlace(forest, p)
      ensures p in Joined(below, others)
    {
      PlaceJoined(forest, below, others, p);
    }
  }

  lemma PlaceJoined(forest: seq<Symbol>, below: seq<Place>, others: seq<Place>, p: Place)
    requires forest != [] && IsPlace(forest, p)
    requires Complete(forest[0].children, below) && Complete(forest[1..], others)
    ensures p in Joined(below, others)
  {
    if p[0] > 0 {
      var q := [p[0] - 1] + p[1..];
      assert q[1..] == p[1..];
      assert IsPlace(forest[1..], q);
      ShiftJoined(below, others, q);
      assert Shift(q) == p;
    } else if |p| > 1 {
      assert IsPlace(forest[0].children, p[1..]);
      LowerJoined(below, others, p[1..]);
      assert Lower(p[1..]) == p;
    } else {
      assert p == [0] && Joined(below, others)[0] == [0];
    }
  }

  lemma LowerJoined(below: seq<Place>, others: seq<Place>, p: Place)
    requires p in below
    ensures Lower(p) in Joined(below, others)
  {
    var i :| 0 <= i < |below| && below[i] == p;
    assert Joined(below, others)[1 + i] == Lower(p);
  }

  lemma ShiftJoined(below: seq<Place>, others: seq<Place>, p: Place)
    requires p in others
    ensures Shift(p) in Joined(below, others)
  {
    var i :| 0 <= i < |others| && others[i] == p;
    assert Joined(below, others)[1 + |below| + i] == Shift(p);
  }

  lemma JoinedOrdered(below: seq<Place>, others: seq<Place>)
    requires Ordered(below) && Ordered(others)
    requires forall i :: 0 <= i < |below| ==> below[i] != []
    requires forall i :: 0 <= i < |others| ==> others[i] != []
    ensures Ordered(Joined(below, others))
  {
    var places, n := Joined(below, others), |below|;
    forall i, j | 0 <= i < j < |places|
      ensures ComesBefore(places[i], places[j])
    {
      if j <= n {
        assert places[j] == Lower(below[j - 1]);
        if i > 0 {
          assert places[i] == Lower(below[i - 1]);
        }
      } else {
        assert places[j] == Shift(others[j - 1 - n]);
        if i > n {
          ShiftKeepsOrder(others[i - 1 - n], others[j - 1 - n]);
        }
      }
    }
  }

  lemma ShiftKeepsOrder(p: Place, q: Place)
    requires p != [] && q != [] && ComesBefore(p, q)
    ensures ComesBefore(Shift(p), Shift(q))
  {
  }

  /** The flattening is the pre-order of the forest. */
  lemma FlattenIsPreorder(forest: seq<Symbol>)
    ensures exists places :: IsPreorder(forest, places, Flatten(forest))
  {
    var places := Preorder(forest);
  }
}
