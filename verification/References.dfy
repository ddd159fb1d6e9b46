/** References in a Rust syntax tree (crates/codequery-index/src/refs.rs). */
module References {
  import opened Sequences
  import opened Wrappers
  import opened SyntaxTree

  datatype ReferenceKind = Call | TypeUsage | Import | Assignment

  /** A reference; `at` names the node, of which the program keeps the position only. */
  datatype Reference = Reference(
    at: NodePath, line: nat, column: nat, kind: ReferenceKind, context: string, caller: Option<string>)

  /** The source lines, and the word lists that exclude primitives, path keywords, keywords and macros. */
  datatype Source = Source(
    lines: seq<string>,
    primitive: string -> bool,
    useKeyword: string -> bool,
    keyword: string -> bool,
    macroName: string -> bool)

  function MakeReference(src: Source, n: Node, at: NodePath, kind: ReferenceKind, caller: Option<string>): Reference {
    Reference(at, n.startRow + 1, n.startColumn, kind,
              if n.startRow < |src.lines| then src.lines[n.startRow] else "", caller)
  }

  // What a single node gives rise to.

  /** The readable name of a function item. */
  function FunctionName(n: Node): Option<string> {
    if n.kind.FunctionItem? then
      match ChildByField(n, NameField) case Some(i) => n.children[i].text case None => None
    else None
  }

  function CurrentFunction(n: Node, enclosing: Option<string>): Option<string> {
    if FunctionName(n).Some? then FunctionName(n) else enclosing
  }

  function FieldTarget(n: Node, i: nat, f: Field): (t: Option<NodePath>)
    requires i < |n.children|
    ensures t.Some? ==> |t.value| == 2 && t.value[0] == i && Reaches(n, t.value)
                        && t.value[1] < |n.children[i].children|
                        && NodeAt(n, t.value) == n.children[i].children[t.value[1]]
  {
    var c := n.children[i];
    match ChildByField(c, f)
    case Some(j) =>
      assert [j][1..] == [];
      assert Reaches(c, [j]) && NodeAt(c, [j]) == c.children[j];
      assert [i, j][1..] == [j];
      Some([i, j])
    case None => None
  }

  /** The node that a call expression calls. */
  function CallTarget(n: Node): (t: Option<NodePath>)
    ensures t.Some? ==> t.value != [] && Reaches(n, t.value)
  {
    match ChildByField(n, FunctionField)
    case None => None
    case Some(i) =>
      match n.children[i].kind
      case Identifier => Some([i])
      case ScopedIdentifier => FieldTarget(n, i, NameField)
      case FieldExpression => FieldTarget(n, i, FieldField)
      case _ => None
  }

  /** The node that an assignment assigns. */
  function AssignmentTarget(n: Node): (t: Option<NodePath>)
    ensures t.Some? ==> t.value != [] && Reaches(n, t.value)
  {
    match ChildByField(n, LeftField)
    case None => None
    case Some(i) =>
      match n.children[i].kind
      case Identifier => Some([i])
      case FieldExpression => FieldTarget(n, i, FieldField)
      case _ => None
  }

  /** The target of a call or an assignment, if readable. */
  function Target(n: Node): (t: Option<NodePath>)
    ensures t.Some? ==> t.value != [] && Reaches(n, t.value)
  {
    var t := match n.kind
      case CallExpression => CallTarget(n)
      case AssignmentExpression => AssignmentTarget(n)
      case CompoundAssignment => AssignmentTarget(n)
      case _ => None;
    if t.Some? && NodeAt(n, t.value).text.Some? then t else None
  }

  predicate IsDefinitionName(parent: Option<Node>, n: Node) {
    parent.Some? && parent.value.kind.TypeDefinition? && ChildByField(parent.value, NameField).Some?
    && var name := parent.value.children[ChildByField(parent.value, NameField).value];
    name.startByte == n.startByte && name.endByte == n.endByte
  }

  predicate IsTypeUsage(src: Source, parent: Option<Node>, n: Node) {
    n.kind.TypeIdentifier? && !IsDefinitionName(parent, n) && n.text.Some? && !src.primitive(n.text.value)
  }

  predicate IsImportedName(src: Source, n: Node) {
    (n.kind.Identifier? || n.kind.TypeIdentifier?) && n.text.Some? && !src.useKeyword(n.text.value)
  }

  predicate Skipped(n: Node) { n.isError || n.isMissing }

  /** Child `i` of a token tree is a word followed by an opening parenthesis or a token tree. */
  predicate IsTokenCall(src: Source, n: Node, i: nat) {
    i < |n.children| && !Skipped(n.children[i]) && n.children[i].kind.Identifier?
    && n.children[i].text.Some? && !src.keyword(n.children[i].text.value) && !src.macroName(n.children[i].text.value)
    && i + 1 < |n.children| && (n.children[i + 1].kind.TokenTree? || n.children[i + 1].kind.OpenParenthesis?)
  }

  predicate Descends(n: Node) {
    !n.kind.UseDeclaration? && !n.kind.TypeIdentifier? && !n.kind.TokenTree?
  }

  // The walks, as functions of the tree.

  function UseTree(src: Source, n: Node, at: NodePath, caller: Option<string>): seq<Reference>
    decreases n, 1
  {
    (if IsImportedName(src, n) then [MakeReference(src, n, at, Import, caller)] else [])
    + UseChildren(src, n, at, caller, |n.children|)
  }

  function UseChildren(src: Source, n: Node, at: NodePath, caller: Option<string>, count: nat): seq<Reference>
    requires count <= |n.children|
    decreases n, 0, count
  {
    if count == 0 then []
    else UseChildren(src, n, at, caller, count - 1) + UseTree(src, n.children[count - 1], at + [count - 1], caller)
  }

  function TokenCalls(src: Source, n: Node, at: NodePath, caller: Option<string>, count: nat): seq<Reference>
    requires count <= |n.children|
    decreases n, count
  {
    if count == 0 then []
    else TokenCalls(src, n, at, caller, count - 1) + TokenChild(src, n, at, caller, count - 1)
  }

  function TokenChild(src: Source, n: Node, at: NodePath, caller: Option<string>, i: nat): seq<Reference>
    requires i < |n.children|
    decreases n, i
  {
    var child := n.children[i];
    if Skipped(child) then []
    else (if IsTokenCall(src, n, i) then [MakeReference(src, child, at + [i], Call, caller)] else [])
         + (if child.kind.TokenTree? then TokenCalls(src, child, at + [i], caller, |child.children|) else [])
  }

  /** The references that a node adds before its children are walked. */
  function Own(src: Source, parent: Option<Node>, n: Node, at: NodePath, caller: Option<string>): seq<Reference> {
    match n.kind
    case UseDeclaration => UseTree(src, n, at, caller)
    case TokenTree => TokenCalls(src, n, at, caller, |n.children|)
    case TypeIdentifier => if IsTypeUsage(src, parent, n) then [MakeReference(src, n, at, TypeUsage, caller)] else []
    case _ =>
      match Target(n)
      case Some(t) =>
        [MakeReference(src, NodeAt(n, t), at + t, if n.kind.CallExpression? then Call else Assignment, caller)]
      case None => []
  }

  function Walk(src: Source, parent: Option<Node>, n: Node, at: NodePath, enclosing: Option<string>): seq<Reference>
    decreases n, 1
  {
    Own(src, parent, n, at, CurrentFunction(n, enclosing))
    + (if Descends(n) then WalkChildren(src, n, at, CurrentFunction(n, enclosing), |n.children|) else [])
  }

  function WalkChildren(src: Source, n: Node, at: NodePath, caller: Option<string>, count: nat): seq<Reference>
    requires count <= |n.children|
    decreases n, 0, count
  {
    if count == 0 then []
    else WalkChildren(src, n, at, caller, count - 1) + WalkChild(src, n, at, caller, count - 1)
  }

  function WalkChild(src: Source, n: Node, at: NodePath, caller: Option<string>, i: nat): seq<Reference>
    requires i < |n.children|
    decreases n, 0, i
  {
    if Skipped(n.children[i]) then [] else Walk(src, Some(n), n.children[i], at + [i], caller)
  }

  // The walks, as the program runs them.

  method WalkUseTree(src: Source, node: Node, at: NodePath, caller: Option<string>, refs: seq<Reference>)
    returns (refs': seq<Reference>)
    decreases node
    ensures refs' == refs + UseTree(src, node, at, caller)
  {
    refs' := refs;
    if node.kind.Identifier? || node.kind.TypeIdentifier? {
      if node.text.Some? && !src.useKeyword(node.text.value) {
        refs' := refs' + [MakeReference(src, node, at, Import, caller)];
      }
    }
    ghost var head := refs';
    var i := 0;
    while i < |node.children|
      invariant 0 <= i <= |node.children|
      invariant refs' == head + UseChildren(src, node, at, caller, i)
    {
      refs' := WalkUseTree(src, node.children[i], at + [i], caller, refs');
      Associative(head, UseChildren(src, node, at, caller, i), UseTree(src, node.children[i], at + [i], caller));
      i := i + 1;
    }
    Associative(refs, head[|refs|..], UseChildren(src, node, at, caller, i));
  }

  method ExtractCallRef(src: Source, node: Node, at: NodePath, caller: Option<string>, refs: seq<Reference>)
    returns (refs': seq<Reference>)
    requires node.kind.CallExpression?
    ensures refs' == refs + Own(src, None, node, at, caller)
    ensures forall t :: IsCalled(node, t) && Readable(node, t) ==>
                          refs' == refs + [MakeReference(src, NodeAt(node, t), at + t, Call, caller)]
    ensures (forall t :: !(IsCalled(node, t) && Readable(node, t))) ==> refs' == refs
  {
    TargetsExactly(node);
    var target := CallTarget(node);
    if target.Some? && NodeAt(node, target.value).text.Some? {
      refs' := refs + [MakeReference(src, NodeAt(node, target.value), at + target.value, Call, caller)];
    } else {
      refs' := refs;
    }
  }

  method ExtractAssignmentRef(src: Source, node: Node, at: NodePath, caller: Option<string>, refs: seq<Reference>)
    returns (refs': seq<Reference>)
    requires node.kind.AssignmentExpression? || node.kind.CompoundAssignment?
    ensures refs' == refs + Own(src, None, node, at, caller)
    ensures forall t :: IsAssigned(node, t) && Readable(node, t) ==>
                          refs' == refs + [MakeReference(src, NodeAt(node, t), at + t, Assignment, caller)]
    ensures (forall t :: !(IsAssigned(node, t) && Readable(node, t))) ==> refs' == refs
  {
    TargetsExactly(node);
    var target := AssignmentTarget(node);
    if target.Some? && NodeAt(node, target.value).text.Some? {
      refs' := refs + [MakeReference(src, NodeAt(node, target.value), at + target.value, Assignment, caller)];
    } else {
      refs' := refs;
    }
  }

  method ExtractTokenTreeCalls(src: Source, node: Node, at: NodePath, caller: Option<string>, refs: seq<Reference>)
    returns (refs': seq<Reference>)
    decreases node
    ensures refs' == refs + TokenCalls(src, node, at, caller, |node.children|)
  {
    refs' := refs;
    var i := 0;
    while i < |node.children|
      invariant 0 <= i <= |node.children|
      invariant refs' == refs + TokenCalls(src, node, at, caller, i)
    {
      ghost var before := refs';
      var child := node.children[i];
      if !child.isError && !child.isMissing {
        if child.kind.Identifier? {
          if child.text.Some? && !src.keyword(child.text.value) && !src.macroName(child.text.value) {
            var isCall := i + 1 < |node.children|
                          && (node.children[i + 1].kind.TokenTree? || node.children[i + 1].kind.OpenParenthesis?);
            if isCall {
              refs' := refs' + [MakeReference(src, child, at + [i], Call, caller)];
            }
          }
        }
        if child.kind.TokenTree? {
          refs' := ExtractTokenTreeCalls(src, child, at + [i], caller, refs');
        }
      }
      assert refs' == before + TokenChild(src, node, at, caller, i);
      Associative(refs, TokenCalls(src, node, at, caller, i), TokenChild(src, node, at, caller, i));
      i := i + 1;
    }
  }

  method WalkRustNode(src: Source, parent: Option<Node>, node: Node, at: NodePath, enclosing: Option<string>,
                      refs: seq<Reference>)
    returns (refs': seq<Reference>)
    decreases node
    ensures refs' == refs + Walk(src, parent, node, at, enclosing)
  {
    hide IsCalled;
    hide IsAssigned;
    hide Readable;
    hide CallTarget;
    hide AssignmentTarget;
    hide IsTypeUsage;
    hide MakeReference;
    hide NodeAt;
    hide UseTree;
    hide TokenCalls;
    hide WalkChildren;
    var current := CurrentFunction(node, enclosing);
    if node.kind.UseDeclaration? {
      refs' := WalkUseTree(src, node, at, current, refs);
      return;
    }
    if node.kind.TypeIdentifier? {
      if IsTypeUsage(src, parent, node) {
        refs' := refs + [MakeReference(src, node, at, TypeUsage, current)];
      } else {
        refs' := refs;
      }
      return;
    }
    if node.kind.TokenTree? {
      refs' := ExtractTokenTreeCalls(src, node, at, current, refs);
      return;
    }
    if node.kind.CallExpression? {
      refs' := ExtractCallRef(src, node, at, current, refs);
    } else if node.kind.AssignmentExpression? || node.kind.CompoundAssignment? {
      refs' := ExtractAssignmentRef(src, node, at, current, refs);
    } else {
      refs' := refs;
    }
    ghost var head := refs';
    NoChildren(src, node, at, current);
    var i := 0;
    while i < |node.children|
      invariant 0 <= i <= |node.children|
      invariant refs' == head + WalkChildren(src, node, at, current, i)
    {
      ghost var before := refs';
      var child := node.children[i];
      if !child.isError && !child.isMissing {
        refs' := WalkRustNode(src, Some(node), child, at + [i], current, refs');
      }
      assert refs' == before + WalkChild(src, node, at, current, i);
      NextChild(src, node, at, current, i, head);
      i := i + 1;
    }
    WalkParts(src, parent, node, at, enclosing, refs);
  }

  lemma WalkParts(src: Source, parent: Option<Node>, n: Node, at: NodePath, enclosing: Option<string>,
                  refs: seq<Reference>)
    requires Descends(n)
    ensures refs + Own(src, parent, n, at, CurrentFunction(n, enclosing))
            + WalkChildren(src, n, at, CurrentFunction(n, enclosing), |n.children|)
         == refs + Walk(src, parent, n, at, enclosing)
  {
    var current := CurrentFunction(n, enclosing);
    Associative(refs, Own(src, parent, n, at, current), WalkChildren(src, n, at, current, |n.children|));
  }

  lemma NoChildren(src: Source, n: Node, at: NodePath, caller: Option<string>)
    ensures WalkChildren(src, n, at, caller, 0) == []
  {
  }

  lemma NextChild(src: Source, n: Node, at: NodePath, caller: Option<string>, i: nat, head: seq<Reference>)
    requires i < |n.children|
    ensures head + WalkChildren(src, n, at, caller, i) + WalkChild(src, n, at, caller, i)
         == head + WalkChildren(src, n, at, caller, i + 1)
  {
    Associative(head, WalkChildren(src, n, at, caller, i), WalkChild(src, n, at, caller, i));
  }

  method ExtractRustReferences(src: Source, root: Node) returns (refs: seq<Reference>)
    ensures refs == Walk(src, None, root, [], None)
  {
    refs := WalkRustNode(src, None, root, [], None, []);
  }

  // What is reported, in terms of the tree alone.

  predicate Readable(n: Node, s: NodePath) { Reaches(n, s) && NodeAt(n, s).text.Some? }

  /** What a call calls: its function child if that is an identifier, and otherwise the name of a scoped
      identifier or the field of a field expression. */
  predicate IsCalled(n: Node, s: NodePath) {
    s != [] && IsFirstChild(n, FunctionField, s[0])
    && var c := n.children[s[0]];
    || (c.kind.Identifier? && |s| == 1)
    || (c.kind.ScopedIdentifier? && |s| == 2 && IsFirstChild(c, NameField, s[1]))
    || (c.kind.FieldExpression? && |s| == 2 && IsFirstChild(c, FieldField, s[1]))
  }

  /** What an assignment assigns: its left child if that is an identifier, and otherwise the field of a
      field expression. */
  predicate IsAssigned(n: Node, s: NodePath) {
    s != [] && IsFirstChild(n, LeftField, s[0])
    && var c := n.children[s[0]];
    || (c.kind.Identifier? && |s| == 1)
    || (c.kind.FieldExpression? && |s| == 2 && IsFirstChild(c, FieldField, s[1]))
  }

  /** A type definition gives its name at the span of the node. */
  predicate NamesDefinition(parent: Node, n: Node) {
    parent.kind.TypeDefinition?
    && exists i: nat :: i < |parent.children| && IsFirstChild(parent, NameField, i)
                        && parent.children[i].startByte == n.startByte && parent.children[i].endByte == n.endByte
  }

  /** A readable name other than a path keyword. */
  predicate IsImport(src: Source, n: Node) {
    (n.kind.Identifier? || n.kind.TypeIdentifier?) && n.text.Some? && !src.useKeyword(n.text.value)
  }

  /** A type name that is readable, no primitive, and not the name of the definition it stands in. */
  predicate IsType(src: Source, parent: Option<Node>, n: Node) {
    n.text.Some? && !src.primitive(n.text.value) && !(parent.Some? && NamesDefinition(parent.value, n))
  }

  /** A word that is neither a keyword nor a macro name, with a parenthesis or a token tree next to it. */
  predicate IsCalledWord(src: Source, n: Node, i: nat) {
    i + 1 < |n.children| && n.children[i].kind.Identifier?
    && n.children[i].text.Some? && !src.keyword(n.children[i].text.value) && !src.macroName(n.children[i].text.value)
    && (n.children[i + 1].kind.TokenTree? || n.children[i + 1].kind.OpenParenthesis?)
  }

  /** A node that is handled together with everything below it. */
  predicate IsWhole(n: Node) { n.kind.UseDeclaration? || n.kind.TypeIdentifier? || n.kind.TokenTree? }

  /** The walk looks at the node: nothing above it is handled as a whole, and neither it nor a node
      between it and the root is an ERROR or MISSING node. */
  ghost predicate Visible(n: Node, p: NodePath) {
    Reaches(n, p)
    && (forall k :: 0 <= k < |p| ==> Reaches(n, p[..k]) && !IsWhole(NodeAt(n, p[..k])))
    && (forall k :: 0 < k <= |p| ==>
                      Reaches(n, p[..k]) && !NodeAt(n, p[..k]).isError && !NodeAt(n, p[..k]).isMissing)
  }

  /** The node at `s` inside a token tree is called there, in it or in a token tree nested in it. */
  predicate CalledInTokens(src: Source, n: Node, s: NodePath) {
    s != [] && s[0] < |n.children| && !n.children[s[0]].isError && !n.children[s[0]].isMissing
    && if |s| == 1 then IsCalledWord(src, n, s[0])
    else n.children[s[0]].kind.TokenTree? && CalledInTokens(src, n.children[s[0]], s[1..])
  }

  /** A visible node `n` makes the node at `s` below it a reference of kind `k`. */
  predicate Makes(src: Source, parent: Option<Node>, n: Node, s: NodePath, k: ReferenceKind) {
    match n.kind
    case UseDeclaration => k == Import && Reaches(n, s) && IsImport(src, NodeAt(n, s))
    case TokenTree => k == Call && CalledInTokens(src, n, s)
    case TypeIdentifier => k == TypeUsage && s == [] && IsType(src, parent, n)
    case CallExpression => k == Call && IsCalled(n, s) && Readable(n, s)
    case AssignmentExpression => k == Assignment && IsAssigned(n, s) && Readable(n, s)
    case CompoundAssignment => k == Assignment && IsAssigned(n, s) && Readable(n, s)
    case _ => false
  }

  lemma FieldTargetExactly(n: Node, i: nat, f: Field, s: NodePath)
    requires i < |n.children|
    ensures FieldTarget(n, i, f) == Some(s) <==> |s| == 2 && s[0] == i && IsFirstChild(n.children[i], f, s[1])
  {
    if |s| == 2 {
      assert s == [s[0], s[1]];
    }
  }

  lemma CalledExactly(n: Node, s: NodePath)
    ensures CallTarget(n) == Some(s) <==> IsCalled(n, s)
  {
    hide FieldTarget;
    assert |s| == 1 ==> s == [s[0]];
    var child := ChildByField(n, FunctionField);
    if child.Some? {
      FieldTargetExactly(n, child.value, NameField, s);
      FieldTargetExactly(n, child.value, FieldField, s);
    }
  }

  lemma AssignedExactly(n: Node, s: NodePath)
    ensures AssignmentTarget(n) == Some(s) <==> IsAssigned(n, s)
  {
    hide FieldTarget;
    assert |s| == 1 ==> s == [s[0]];
    var child := ChildByField(n, LeftField);
    if child.Some? {
      FieldTargetExactly(n, child.value, FieldField, s);
    }
  }

  /** The target of a node is what it calls or assigns, if that can be read. */
  lemma TargetExactly(n: Node, s: NodePath)
    ensures Target(n) == Some(s) <==>
            && Readable(n, s)
            && ((n.kind.CallExpression? && IsCalled(n, s))
                || ((n.kind.AssignmentExpression? || n.kind.CompoundAssignment?) && IsAssigned(n, s)))
  {
    hide IsCalled;
    hide IsAssigned;
    hide CallTarget;
    hide AssignmentTarget;
    CalledExactly(n, s);
    AssignedExactly(n, s);
  }

  lemma TargetsExactly(n: Node)
    ensures n.kind.CallExpression? ==> forall t :: Target(n) == Some(t) <==> Readable(n, t) && IsCalled(n, t)
    ensures n.kind.AssignmentExpression? || n.kind.CompoundAssignment? ==>
              forall t :: Target(n) == Some(t) <==> Readable(n, t) && IsAssigned(n, t)
  {
    forall t
      ensures n.kind.CallExpression? ==> (Target(n) == Some(t) <==> Readable(n, t) && IsCalled(n, t))
      ensures n.kind.AssignmentExpression? || n.kind.CompoundAssignment? ==>
                (Target(n) == Some(t) <==> Readable(n, t) && IsAssigned(n, t))
    {
      TargetExactly(n, t);
    }
  }

  function ParentAt(parent: Option<Node>, n: Node, p: NodePath): Option<Node>
    requires Reaches(n, p)
    decreases p
  {
    if p == [] then parent else ParentAt(Some(n), n.children[p[0]], p[1..])
  }

  ghost predicate MadeAt(src: Source, parent: Option<Node>, n: Node, p: NodePath, k: ReferenceKind, i: nat) {
    i <= |p| && Visible(n, p[..i]) && Makes(src, ParentAt(parent, n, p[..i]), NodeAt(n, p[..i]), p[i..], k)
  }

  /** Some visible node on the way to `p` makes it a reference. */
  ghost predicate Referenced(src: Source, parent: Option<Node>, n: Node, p: NodePath, k: ReferenceKind) {
    exists i: nat :: MadeAt(src, parent, n, p, k, i)
  }

  /** The name of the nearest function item properly above `p`, or `enclosing` when there is none in `n`. */
  function NearestFunction(n: Node, p: NodePath, enclosing: Option<string>): Option<string>
    requires Reaches(n, p)
  {
    if p == [] then enclosing else NearestFunction(n.children[p[0]], p[1..], CurrentFunction(n, enclosing))
  }

  /** The node is a function item, and this is its first readable name. */
  predicate NamesFunction(n: Node, name: string) {
    n.kind.FunctionItem?
    && exists i: nat :: i < |n.children| && IsFirstChild(n, NameField, i) && n.children[i].text == Some(name)
  }

  lemma FunctionNameExactly(n: Node, name: string)
    ensures FunctionName(n) == Some(name) <==> NamesFunction(n, name)
  {
    if FunctionName(n) == Some(name) {
      assert IsFirstChild(n, NameField, ChildByField(n, NameField).value);
    }
  }

  /** The last node above `p` that names a function names it so; or there is none, and no name. */
  ghost predicate IsCaller(n: Node, p: NodePath, caller: Option<string>) {
    Reaches(n, p) && (forall j :: 0 <= j <= |p| ==> Reaches(n, p[..j]))
    && match caller
       case Some(name) => exists k: nat :: IsLastFunction(n, p, k) && NamesFunction(NodeAt(n, p[..k]), name)
       case None => forall j, name :: 0 <= j < |p| ==> !NamesFunction(NodeAt(n, p[..j]), name)
  }

  /** No node between position `k` of the path and its end names a function. */
  ghost predicate IsLastFunction(n: Node, p: NodePath, k: nat)
    requires forall j :: 0 <= j <= |p| ==> Reaches(n, p[..j])
  {
    k < |p| && forall j, name :: k < j < |p| ==> !NamesFunction(NodeAt(n, p[..j]), name)
  }

  lemma FunctionNameNone(n: Node)
    ensures FunctionName(n).None? <==> forall name :: !NamesFunction(n, name)
  {
    forall name
      ensures FunctionName(n) == Some(name) <==> NamesFunction(n, name)
    {
      FunctionNameExactly(n, name);
    }
    if FunctionName(n).Some? {
      assert NamesFunction(n, FunctionName(n).value);
    }
  }

  /** The nearest function is the caller. */
  lemma NearestIsCaller(n: Node, p: NodePath)
    requires Reaches(n, p)
    ensures IsCaller(n, p, NearestFunction(n, p, None))
  {
    forall j | 0 <= j <= |p|
      ensures Reaches(n, p[..j])
    {
      PrefixReaches(n, p, j);
    }
    forall j | 0 <= j < |p|
      ensures FunctionName(NodeAt(n, p[..j])).None? <==> forall name :: !NamesFunction(NodeAt(n, p[..j]), name)
    {
      FunctionNameNone(NodeAt(n, p[..j]));
    }
    LastOrNone(n, p, |p|);
  }

  /** Looking back from position `m`, below which no function has been found, the nearest one is found. */
  lemma {:induction false} LastOrNone(n: Node, p: NodePath, m: nat)
    requires Reaches(n, p) && m <= |p| && forall j :: 0 <= j <= |p| ==> Reaches(n, p[..j])
    requires forall j :: m <= j < |p| ==> FunctionName(NodeAt(n, p[..j])).None?
    requires forall j :: 0 <= j < |p| ==>
                           (FunctionName(NodeAt(n, p[..j])).None?
                            <==> forall name :: !NamesFunction(NodeAt(n, p[..j]), name))
    ensures IsCaller(n, p, NearestFunction(n, p, None))
  {
    if m == 0 {
      NearestNone(n, p, None);
    } else if FunctionName(NodeAt(n, p[..m - 1])).None? {
      LastOrNone(n, p, m - 1);
    } else {
      NearestIsLast(n, p, None, m - 1);
      FunctionNameExactly(NodeAt(n, p[..m - 1]), FunctionName(NodeAt(n, p[..m - 1])).value);
      assert IsLastFunction(n, p, m - 1);
    }
  }

  lemma {:induction false} NearestIsLast(n: Node, p: NodePath, enclosing: Option<string>, k: nat)
    requires Reaches(n, p) && k < |p| && Reaches(n, p[..k]) && FunctionName(NodeAt(n, p[..k])).Some?
    requires forall j :: k < j < |p| ==> Reaches(n, p[..j]) && FunctionName(NodeAt(n, p[..j])).None?
    ensures NearestFunction(n, p, enclosing) == FunctionName(NodeAt(n, p[..k]))
  {
    var c, s := n.children[p[0]], p[1..];
    assert forall j :: 0 < j <= |p| ==> p[..j][1..] == s[..j - 1];
    if k == 0 {
      forall j | 0 <= j < |s|
        ensures Reaches(c, s[..j]) && FunctionName(NodeAt(c, s[..j])).None?
      {
        assert p[..j + 1][1..] == s[..j];
      }
      NearestNone(c, s, FunctionName(n));
    } else {
      forall j | k - 1 < j < |s|
        ensures Reaches(c, s[..j]) && FunctionName(NodeAt(c, s[..j])).None?
      {
        assert p[..j + 1][1..] == s[..j];
      }
      NearestIsLast(c, s, CurrentFunction(n, enclosing), k - 1);
    }
  }

  lemma {:induction false} NearestNone(n: Node, p: NodePath, enclosing: Option<string>)
    requires Reaches(n, p)
    requires forall j :: 0 <= j < |p| ==> Reaches(n, p[..j]) && FunctionName(NodeAt(n, p[..j])).None?
    ensures NearestFunction(n, p, enclosing) == enclosing
  {
    if p == [] {
    } else {
      var c, s := n.children[p[0]], p[1..];
      assert p[..0] == [];
      forall j | 0 <= j < |s|
        ensures Reaches(c, s[..j]) && FunctionName(NodeAt(c, s[..j])).None?
      {
        assert p[..j + 1][1..] == s[..j];
      }
      NearestNone(c, s, enclosing);
    }
  }

  // The grammar.

  /** No named function in the subtree. */
  predicate NoFunctions(n: Node) {
    FunctionName(n).None? && forall c :: c in n.children ==> NoFunctions(c)
  }

  /** Use declarations hold no functions, and what is called or assigned is never a type identifier. */
  predicate Grammatical(n: Node) {
    (n.kind.UseDeclaration? ==> NoFunctions(n))
    && (Target(n).Some? ==> !NodeAt(n, Target(n).value).kind.TypeIdentifier?)
    && forall c :: c in n.children ==> Grammatical(c)
  }

  /** The reference says where its node is, and which function encloses it. */
  ghost predicate Describes(src: Source, n: Node, at: NodePath, enclosing: Option<string>, r: Reference) {
    at <= r.at && Reaches(n, r.at[|at|..])
    && r == MakeReference(src, NodeAt(n, r.at[|at|..]), r.at, r.kind, NearestFunction(n, r.at[|at|..], enclosing))
  }

  lemma DescribesBelow(src: Source, n: Node, i: nat, at: NodePath, enclosing: Option<string>, r: Reference)
    requires i < |n.children| && Describes(src, n.children[i], at + [i], CurrentFunction(n, enclosing), r)
    ensures Describes(src, n, at, enclosing, r)
  {
    var q := r.at[|at|..];
    assert r.at[..|at| + 1] == at + [i];
    assert q[0] == i && q[1..] == r.at[|at + [i]|..];
  }

  lemma {:induction false} NoFunctionsAbove(n: Node, q: NodePath, enclosing: Option<string>)
    requires NoFunctions(n) && Reaches(n, q)
    ensures NearestFunction(n, q, enclosing) == enclosing
  {
    if q == [] {
    } else {
      NoFunctionsAbove(n.children[q[0]], q[1..], enclosing);
    }
  }

  lemma {:induction false} UseTreeDescribes(src: Source, n: Node, at: NodePath, caller: Option<string>)
    requires NoFunctions(n)
    decreases n, 1
    ensures forall r :: r in UseTree(src, n, at, caller) ==> Describes(src, n, at, caller, r)
  {
    UseChildrenDescribe(src, n, at, caller, |n.children|);
  }

  lemma {:induction false} UseChildrenDescribe(src: Source, n: Node, at: NodePath, caller: Option<string>, count: nat)
    requires NoFunctions(n) && count <= |n.children|
    decreases n, 0, count
    ensures forall r :: r in UseChildren(src, n, at, caller, count) ==> Describes(src, n, at, caller, r)
  {
    if count == 0 {
    } else {
      var c := n.children[count - 1];
      UseChildrenDescribe(src, n, at, caller, count - 1);
      UseTreeDescribes(src, c, at + [count - 1], caller);
      forall r | r in UseTree(src, c, at + [count - 1], caller)
        ensures Describes(src, n, at, caller, r)
      {
        DescribesBelow(src, n, count - 1, at, caller, r);
      }
    }
  }

  lemma {:induction false} TokenCallsDescribe(src: Source, n: Node, at: NodePath, caller: Option<string>, count: nat)
    requires n.kind.TokenTree? && count <= |n.children|
    decreases n, count
    ensures forall r :: r in TokenCalls(src, n, at, caller, count) ==> Describes(src, n, at, caller, r)
  {
    if count == 0 {
    } else {
      var i := count - 1;
      var c := n.children[i];
      TokenCallsDescribe(src, n, at, caller, i);
      if c.kind.TokenTree? {
        TokenCallsDescribe(src, c, at + [i], caller, |c.children|);
      }
      forall r | r in TokenChild(src, n, at, caller, i)
        ensures Describes(src, n, at, caller, r)
      {
        DescribesBelow(src, n, i, at, caller, r);
      }
    }
  }

  lemma TargetDescribed(src: Source, n: Node, at: NodePath, enclosing: Option<string>, k: ReferenceKind)
    requires Target(n).Some?
    ensures var t := Target(n).value;
            Describes(src, n, at, enclosing, MakeReference(src, NodeAt(n, t), at + t, k, CurrentFunction(n, enclosing)))
  {
    var t := Target(n).value;
    assert (at + t)[|at|..] == t;
    var c := n.children[t[0]];
    if |t| > 1 {
      var s, current := t[1..], CurrentFunction(n, enclosing);
      assert c.kind.ScopedIdentifier? || c.kind.FieldExpression?;
      assert s[1..] == [];
      assert NearestFunction(c, s, current) == current;
    } else {
      assert t[1..] == [];
    }
  }

  /** Every reference describes its node, and its caller is the nearest named function item above it. */
  lemma {:induction false} WalkDescribes(src: Source, parent: Option<Node>, n: Node, at: NodePath,
                                         enclosing: Option<string>)
    requires Grammatical(n)
    decreases n, 1
    ensures forall r :: r in Walk(src, parent, n, at, enclosing) ==> Describes(src, n, at, enclosing, r)
  {
    var current := CurrentFunction(n, enclosing);
    if n.kind.UseDeclaration? {
      UseTreeDescribes(src, n, at, current);
    } else if n.kind.TokenTree? {
      TokenCallsDescribe(src, n, at, current, |n.children|);
    } else {
      if Target(n).Some? {
        TargetDescribed(src, n, at, enclosing, if n.kind.CallExpression? then Call else Assignment);
      }
      WalkChildrenDescribe(src, n, at, enclosing, |n.children|);
    }
  }

  lemma {:induction false} WalkChildrenDescribe(src: Source, n: Node, at: NodePath, enclosing: Option<string>,
                                                count: nat)
    requires Grammatical(n) && count <= |n.children|
    decreases n, 0, count
    ensures forall r :: r in WalkChildren(src, n, at, CurrentFunction(n, enclosing), count) ==>
                          Describes(src, n, at, enclosing, r)
  {
    if count == 0 {
    } else {
      var i, current := count - 1, CurrentFunction(n, enclosing);
      WalkChildrenDescribe(src, n, at, enclosing, i);
      if !Skipped(n.children[i]) {
        WalkDescribes(src, Some(n), n.children[i], at + [i], current);
        forall r | r in WalkChild(src, n, at, current, i)
          ensures Describes(src, n, at, enclosing, r)
        {
          DescribesBelow(src, n, i, at, enclosing, r);
        }
      }
    }
  }

  // Exactly the referenced nodes are reported.

  ghost predicate Has(refs: seq<Reference>, w: NodePath, k: ReferenceKind) {
    exists r :: r in refs && r.at == w && r.kind == k
  }

  lemma HasAppend(a: seq<Reference>, b: seq<Reference>, w: NodePath, k: ReferenceKind)
    ensures Has(a + b, w, k) <==> Has(a, w, k) || Has(b, w, k)
  {
    if Has(a, w, k) {
      var r :| r in a && r.at == w && r.kind == k;
      assert r in a + b;
    }
    if Has(b, w, k) {
      var r :| r in b && r.at == w && r.kind == k;
      assert r in a + b;
    }
  }

  lemma BelowChild(at: NodePath, i: nat, w: NodePath)
    ensures at + [i] <= w <==> at <= w && |w| > |at| && w[|at|] == i
    ensures at + [i] <= w ==> w[|at + [i]|..] == w[|at|..][1..]
  {
    if at <= w && |w| > |at| && w[|at|] == i {
      assert w[..|at| + 1] == at + [i];
    }
    if at + [i] <= w {
      assert w[..|at| + 1] == at + [i];
      assert w[..|at|] == at;
    }
  }

  /** `w` lies below one of the first `count` children of the node at `at`. */
  predicate Below(at: NodePath, w: NodePath, count: nat) {
    at <= w && |w| > |at| && w[|at|] < count
  }

  predicate UseMakes(src: Source, n: Node, s: NodePath, k: ReferenceKind) {
    k == Import && Reaches(n, s) && IsImportedName(src, NodeAt(n, s))
  }

  lemma {:induction false} UseTreeExactly(src: Source, n: Node, at: NodePath, caller: Option<string>,
                                          w: NodePath, k: ReferenceKind)
    decreases n, 1
    ensures Has(UseTree(src, n, at, caller), w, k) <==> at <= w && UseMakes(src, n, w[|at|..], k)
  {
    var own := if IsImportedName(src, n) then [MakeReference(src, n, at, Import, caller)] else [];
    UseChildrenExactly(src, n, at, caller, |n.children|, w, k);
    HasAppend(own, UseChildren(src, n, at, caller, |n.children|), w, k);
    assert IsImportedName(src, n) ==> own[0] in own;
  }

  lemma {:induction false} UseChildrenExactly(src: Source, n: Node, at: NodePath, caller: Option<string>,
                                              count: nat, w: NodePath, k: ReferenceKind)
    requires count <= |n.children|
    decreases n, 0, count
    ensures Has(UseChildren(src, n, at, caller, count), w, k)
       <==> Below(at, w, count) && UseMakes(src, n.children[w[|at|]], w[|at|..][1..], k)
  {
    if count == 0 {
    } else {
      var i := count - 1;
      UseChildrenExactly(src, n, at, caller, i, w, k);
      UseTreeExactly(src, n.children[i], at + [i], caller, w, k);
      HasAppend(UseChildren(src, n, at, caller, i), UseTree(src, n.children[i], at + [i], caller), w, k);
      BelowChild(at, i, w);
    }
  }

  lemma {:induction false} TokenCallsExactly(src: Source, n: Node, at: NodePath, caller: Option<string>,
                                             count: nat, w: NodePath, k: ReferenceKind)
    requires count <= |n.children|
    decreases n, count
    ensures Has(TokenCalls(src, n, at, caller, count), w, k)
       <==> Below(at, w, count) && k == Call && CalledInTokens(src, n, w[|at|..])
  {
    if count == 0 {
    } else {
      var i := count - 1;
      TokenCallsExactly(src, n, at, caller, i, w, k);
      TokenChildExactly(src, n, at, caller, i, w, k);
      HasAppend(TokenCalls(src, n, at, caller, i), TokenChild(src, n, at, caller, i), w, k);
    }
  }

  lemma {:induction false} TokenChildExactly(src: Source, n: Node, at: NodePath, caller: Option<string>, i: nat,
                                             w: NodePath, k: ReferenceKind)
    requires i < |n.children|
    decreases n, i
    ensures Has(TokenChild(src, n, at, caller, i), w, k)
       <==> Below(at, w, |n.children|) && w[|at|] == i && k == Call && CalledInTokens(src, n, w[|at|..])
  {
    var c := n.children[i];
    BelowChild(at, i, w);
    if !Skipped(c) {
      var own := if IsTokenCall(src, n, i) then [MakeReference(src, c, at + [i], Call, caller)] else [];
      var nested := if c.kind.TokenTree? then TokenCalls(src, c, at + [i], caller, |c.children|) else [];
      HasAppend(own, nested, w, k);
      assert IsTokenCall(src, n, i) ==> own[0] in own;
      if c.kind.TokenTree? {
        TokenCallsExactly(src, c, at + [i], caller, |c.children|, w, k);
      }
    }
  }

  lemma OwnExactly(src: Source, parent: Option<Node>, n: Node, at: NodePath, caller: Option<string>,
                   w: NodePath, k: ReferenceKind)
    ensures Has(Own(src, parent, n, at, caller), w, k) <==> at <= w && Makes(src, parent, n, w[|at|..], k)
  {
    var own := Own(src, parent, n, at, caller);
    hide IsCalled;
    hide IsAssigned;
    hide Target;
    if at <= w {
      TargetExactly(n, w[|at|..]);
    }
    if n.kind.UseDeclaration? {
      UseTreeExactly(src, n, at, caller, w, k);
    } else if n.kind.TokenTree? {
      TokenCallsExactly(src, n, at, caller, |n.children|, w, k);
    } else if own != [] {
      assert own == [own[0]] && own[0] in own;
      if Target(n).Some? {
        assert at + Target(n).value == w <==> at <= w && w[|at|..] == Target(n).value;
      }
    }
  }

  lemma VisibleStep(n: Node, p: NodePath)
    requires p != []
    ensures Visible(n, p) <==> p[0] < |n.children| && Descends(n) && !Skipped(n.children[p[0]])
                               && Visible(n.children[p[0]], p[1..])
  {
    if p[0] < |n.children| {
      var c, s := n.children[p[0]], p[1..];
      forall k | 0 < k <= |p|
        ensures p[..k][1..] == s[..k - 1] && (Reaches(n, p[..k]) <==> Reaches(c, s[..k - 1]))
        ensures Reaches(n, p[..k]) ==> NodeAt(n, p[..k]) == NodeAt(c, s[..k - 1])
      {
        assert p[..k][1..] == s[..k - 1];
      }
      assert p[..0] == [];
      assert s[..0] == [];
      if Visible(n, p) {
        assert Descends(NodeAt(n, p[..0]));
        assert !Skipped(NodeAt(n, p[..1]));
        forall k | 0 <= k <= |s|
          ensures Reaches(c, s[..k]) && (k < |s| ==> Descends(NodeAt(c, s[..k])))
                  && (k > 0 ==> !Skipped(NodeAt(c, s[..k])))
        {
          assert k < |s| ==> Descends(NodeAt(n, p[..k + 1]));
          assert !Skipped(NodeAt(n, p[..k + 1]));
        }
      }
      if Descends(n) && !Skipped(c) && Visible(c, s) {
        forall k | 0 < k <= |p|
          ensures Reaches(n, p[..k]) && (k < |p| ==> Descends(NodeAt(n, p[..k]))) && !Skipped(NodeAt(n, p[..k]))
        {
          assert k < |p| ==> Descends(NodeAt(c, s[..k - 1]));
          assert k > 1 ==> !Skipped(NodeAt(c, s[..k - 1]));
        }
      }
    }
  }

  lemma MadeAtStep(src: Source, parent: Option<Node>, n: Node, p: NodePath, k: ReferenceKind, i: nat)
    requires p != [] && 0 < i
    ensures MadeAt(src, parent, n, p, k, i)
       <==> p[0] < |n.children| && Descends(n) && !Skipped(n.children[p[0]])
            && MadeAt(src, Some(n), n.children[p[0]], p[1..], k, i - 1)
  {
    if i <= |p| {
      VisibleStep(n, p[..i]);
      assert p[..i][1..] == p[1..][..i - 1];
      assert p[i..] == p[1..][i - 1..];
    }
  }

  lemma ReferencedStep(src: Source, parent: Option<Node>, n: Node, p: NodePath, k: ReferenceKind)
    ensures Referenced(src, parent, n, p, k)
       <==> Makes(src, parent, n, p, k)
            || (p != [] && p[0] < |n.children| && Descends(n) && !Skipped(n.children[p[0]])
                && Referenced(src, Some(n), n.children[p[0]], p[1..], k))
  {
    assert p[..0] == [] && p[0..] == p;
    assert MadeAt(src, parent, n, p, k, 0) <==> Makes(src, parent, n, p, k);
    if Referenced(src, parent, n, p, k) {
      var i: nat :| MadeAt(src, parent, n, p, k, i);
      if i > 0 {
        MadeAtStep(src, parent, n, p, k, i);
      }
    }
    if p != [] && p[0] < |n.children| && Descends(n) && !Skipped(n.children[p[0]])
       && Referenced(src, Some(n), n.children[p[0]], p[1..], k) {
      var i: nat :| MadeAt(src, Some(n), n.children[p[0]], p[1..], k, i);
      MadeAtStep(src, parent, n, p, k, i + 1);
    }
  }

  /** The walk reports a node, with a kind, exactly when some visible node makes it a reference of it. */
  lemma {:induction false} WalkExactly(src: Source, parent: Option<Node>, n: Node, at: NodePath,
                                       enclosing: Option<string>, w: NodePath, k: ReferenceKind)
    decreases n, 1
    ensures Has(Walk(src, parent, n, at, enclosing), w, k) <==> at <= w && Referenced(src, parent, n, w[|at|..], k)
  {
    var current := CurrentFunction(n, enclosing);
    OwnExactly(src, parent, n, at, current, w, k);
    if at <= w {
      ReferencedStep(src, parent, n, w[|at|..], k);
    }
    var below := if Descends(n) then WalkChildren(src, n, at, current, |n.children|) else [];
    HasAppend(Own(src, parent, n, at, current), below, w, k);
    if Descends(n) {
      WalkChildrenExactly(src, n, at, current, |n.children|, w, k);
    }
  }

  lemma {:induction false} WalkChildrenExactly(src: Source, n: Node, at: NodePath, caller: Option<string>,
                                               count: nat, w: NodePath, k: ReferenceKind)
    requires count <= |n.children|
    decreases n, 0, count
    ensures Has(WalkChildren(src, n, at, caller, count), w, k)
       <==> Below(at, w, count) && !Skipped(n.children[w[|at|]])
            && Referenced(src, Some(n), n.children[w[|at|]], w[|at|..][1..], k)
  {
    if count == 0 {
    } else {
      var i := count - 1;
      WalkChildrenExactly(src, n, at, caller, i, w, k);
      HasAppend(WalkChildren(src, n, at, caller, i), WalkChild(src, n, at, caller, i), w, k);
      BelowChild(at, i, w);
      if !Skipped(n.children[i]) {
        WalkExactly(src, Some(n), n.children[i], at + [i], caller, w, k);
      }
    }
  }

  // No node is reported twice.

  predicate Distinct(refs: seq<Reference>) {
    forall i, j :: 0 <= i < j < |refs| ==> refs[i].at != refs[j].at
  }

  /** No node has a reference in both lists. */
  ghost predicate Apart(a: seq<Reference>, b: seq<Reference>) {
    forall r, t :: r in a && t in b ==> r.at != t.at
  }

  lemma DistinctAppend(a: seq<Reference>, b: seq<Reference>)
    requires Distinct(a) && Distinct(b) && Apart(a, b)
    ensures Distinct(a + b)
  {
    forall i, j | 0 <= i < j < |a + b|
      ensures (a + b)[i].at != (a + b)[j].at
    {
      if i < |a| <= j {
        assert (a + b)[i] in a && (a + b)[j] in b;
      }
    }
  }

  lemma {:induction false} UseTreeDistinct(src: Source, n: Node, at: NodePath, caller: Option<string>)
    decreases n, 1
    ensures Distinct(UseTree(src, n, at, caller))
  {
    UseChildrenDistinct(src, n, at, caller, |n.children|);
    var below := UseChildren(src, n, at, caller, |n.children|);
    forall r | r in below
      ensures r.at != at
    {
      UseChildrenExactly(src, n, at, caller, |n.children|, r.at, r.kind);
      assert Has(below, r.at, r.kind);
    }
  }

  lemma {:induction false} UseChildrenDistinct(src: Source, n: Node, at: NodePath, caller: Option<string>, count: nat)
    requires count <= |n.children|
    decreases n, 0, count
    ensures Distinct(UseChildren(src, n, at, caller, count))
  {
    if count == 0 {
    } else {
      var i := count - 1;
      UseChildrenDistinct(src, n, at, caller, i);
      UseTreeDistinct(src, n.children[i], at + [i], caller);
      var front, last := UseChildren(src, n, at, caller, i), UseTree(src, n.children[i], at + [i], caller);
      forall r, t | r in front && t in last
        ensures r.at != t.at
      {
        UseChildrenExactly(src, n, at, caller, i, r.at, r.kind);
        assert Has(front, r.at, r.kind);
        UseTreeExactly(src, n.children[i], at + [i], caller, t.at, t.kind);
        assert Has(last, t.at, t.kind);
        BelowChild(at, i, t.at);
      }
      DistinctAppend(front, last);
    }
  }

  lemma {:induction false} TokenCallsDistinct(src: Source, n: Node, at: NodePath, caller: Option<string>, count: nat)
    requires count <= |n.children|
    decreases n, count
    ensures Distinct(TokenCalls(src, n, at, caller, count))
  {
    if count == 0 {
    } else {
      var i := count - 1;
      TokenCallsDistinct(src, n, at, caller, i);
      TokenChildDistinct(src, n, at, caller, i);
      TokenChildApart(src, n, at, caller, i);
      DistinctAppend(TokenCalls(src, n, at, caller, i), TokenChild(src, n, at, caller, i));
    }
  }

  lemma {:induction false} TokenChildApart(src: Source, n: Node, at: NodePath, caller: Option<string>, i: nat)
    requires i < |n.children|
    ensures Apart(TokenCalls(src, n, at, caller, i), TokenChild(src, n, at, caller, i))
  {
    var front, last := TokenCalls(src, n, at, caller, i), TokenChild(src, n, at, caller, i);
    forall r, t | r in front && t in last
      ensures r.at != t.at
    {
      TokenCallsExactly(src, n, at, caller, i, r.at, r.kind);
      assert Has(front, r.at, r.kind);
      TokenChildExactly(src, n, at, caller, i, t.at, t.kind);
      assert Has(last, t.at, t.kind);
    }
  }

  lemma {:induction false} TokenChildDistinct(src: Source, n: Node, at: NodePath, caller: Option<string>, i: nat)
    requires i < |n.children|
    decreases n, i
    ensures Distinct(TokenChild(src, n, at, caller, i))
  {
    var c := n.children[i];
    if c.kind.TokenTree? {
      TokenCallsDistinct(src, c, at + [i], caller, |c.children|);
    }
  }

  /** Neither the target of a call or an assignment nor anything on the way to it is reported by the walk below. */
  lemma {:induction false} TargetNotBelow(src: Source, n: Node, k: ReferenceKind)
    requires Target(n).Some? && Grammatical(n)
    ensures var t := Target(n).value; !Referenced(src, Some(n), n.children[t[0]], t[1..], k)
  {
    var t := Target(n).value;
    var c := n.children[t[0]];
    ReferencedStep(src, Some(n), c, t[1..], k);
    if |t| == 2 {
      var d := c.children[t[1]];
      assert t[1..][1..] == [];
      assert c.kind.ScopedIdentifier? || c.kind.FieldExpression?;
      ReferencedStep(src, Some(c), d, [], k);
    } else {
      assert t[1..] == [] && c.kind.Identifier?;
    }
  }

  lemma {:induction false} WalkDistinct(src: Source, parent: Option<Node>, n: Node, at: NodePath,
                                        enclosing: Option<string>)
    requires Grammatical(n)
    decreases n, 1
    ensures Distinct(Walk(src, parent, n, at, enclosing))
  {
    var current := CurrentFunction(n, enclosing);
    if n.kind.UseDeclaration? {
      UseTreeDistinct(src, n, at, current);
    } else if n.kind.TokenTree? {
      TokenCallsDistinct(src, n, at, current, |n.children|);
    } else if Descends(n) {
      WalkChildrenDistinct(src, n, at, current, |n.children|);
      OwnApart(src, parent, n, at, current);
      DistinctAppend(Own(src, parent, n, at, current), WalkChildren(src, n, at, current, |n.children|));
    }
  }

  /** What a node adds itself is not added again below it. */
  lemma {:induction false} OwnApart(src: Source, parent: Option<Node>, n: Node, at: NodePath, current: Option<string>)
    requires Grammatical(n) && Descends(n)
    ensures |Own(src, parent, n, at, current)| <= 1
    ensures Apart(Own(src, parent, n, at, current), WalkChildren(src, n, at, current, |n.children|))
  {
    var own, below := Own(src, parent, n, at, current), WalkChildren(src, n, at, current, |n.children|);
    forall r, t | r in own && t in below
      ensures r.at != t.at
    {
      WalkChildrenExactly(src, n, at, current, |n.children|, t.at, t.kind);
      assert Has(below, t.at, t.kind);
      TargetNotBelow(src, n, t.kind);
      assert r.at == at + Target(n).value && r.at[|at|..] == Target(n).value;
    }
  }

  lemma {:induction false} WalkChildrenDistinct(src: Source, n: Node, at: NodePath, caller: Option<string>, count: nat)
    requires Grammatical(n) && count <= |n.children|
    decreases n, 0, count
    ensures Distinct(WalkChildren(src, n, at, caller, count))
  {
    if count == 0 {
    } else {
      var i := count - 1;
      WalkChildrenDistinct(src, n, at, caller, i);
      var front, last := WalkChildren(src, n, at, caller, i), WalkChild(src, n, at, caller, i);
      if !Skipped(n.children[i]) {
        WalkDistinct(src, Some(n), n.children[i], at + [i], caller);
      }
      forall r, t | r in front && t in last
        ensures r.at != t.at
      {
        WalkChildrenExactly(src, n, at, caller, i, r.at, r.kind);
        assert Has(front, r.at, r.kind);
        WalkExactly(src, Some(n), n.children[i], at + [i], caller, t.at, t.kind);
        assert Has(last, t.at, t.kind);
        BelowChild(at, i, t.at);
      }
      DistinctAppend(front, last);
    }
  }

  /** The reference has the 1-based line, the column, and the text of the line at which its node starts. */
  predicate IsAtNode(src: Source, n: Node, r: Reference) {
    r.line == n.startRow + 1 && r.column == n.startColumn
    && (if n.startRow < |src.lines| then r.context == src.lines[n.startRow] else r.context == "")
  }

  /** On a grammatical tree the references are exactly the referenced nodes, each once, each with its
      own position and the nearest named function item above it as caller. */
  lemma ReferencesOfTree(src: Source, root: Node)
    requires Grammatical(root)
    ensures var refs := Walk(src, None, root, [], None);
            && (forall p, k :: Has(refs, p, k) <==> Referenced(src, None, root, p, k))
            && Distinct(refs)
            && (forall r :: r in refs ==> Reaches(root, r.at))
            && (forall r :: r in refs ==> IsAtNode(src, NodeAt(root, r.at), r) && IsCaller(root, r.at, r.caller))
  {
    var refs := Walk(src, None, root, [], None);
    forall p, k
      ensures Has(refs, p, k) <==> Referenced(src, None, root, p, k)
    {
      WalkExactly(src, None, root, [], None, p, k);
    }
    WalkDistinct(src, None, root, [], None);
    WalkDescribes(src, None, root, [], None);
    forall r | r in refs
      ensures Reaches(root, r.at)
      ensures IsAtNode(src, NodeAt(root, r.at), r) && IsCaller(root, r.at, r.caller)
    {
      assert Describes(src, root, [], None, r);
      assert r.at[0..] == r.at;
      NearestIsCaller(root, r.at);
    }
  }
}
