/** Parse trees, with a node identified by its path of child indices from the root. */
module SyntaxTree {
  import opened Wrappers

  /** The node kinds that the walks tell apart. */
  datatype Kind =
    | FunctionItem | UseDeclaration | CallExpression | TypeIdentifier | AssignmentExpression
    | CompoundAssignment | TokenTree | Identifier | ScopedIdentifier | FieldExpression | OpenParenthesis
    | TypeDefinition(item: string)   // struct_item, enum_item, trait_item, type_item, union_item
    | OtherKind(name: string)

  datatype Field = NameField | FunctionField | LeftField | FieldField | OtherField(name: string)

  datatype Node = Node(
    kind: Kind,
    field: Option<Field>,
    text: Option<string>,
    isError: bool,
    isMissing: bool,
    hasError: bool,
    startByte: nat,
    endByte: nat,
    startRow: nat,
    startColumn: nat,
    endRow: nat,
    endColumn: nat,
    children: seq<Node>)

  type NodePath = seq<nat>

  /** The path leads to a node of the tree. */
  predicate Reaches(n: Node, path: NodePath) {
    path == [] || (path[0] < |n.children| && Reaches(n.children[path[0]], path[1..]))
  }

  function NodeAt(n: Node, path: NodePath): Node
    requires Reaches(n, path)
  {
    if path == [] then n else NodeAt(n.children[path[0]], path[1..])
  }

  lemma {:induction false} PrefixReaches(n: Node, p: NodePath, k: nat)
    requires Reaches(n, p) && k <= |p|
    ensures Reaches(n, p[..k])
  {
    if k == 0 {
    } else {
      PrefixReaches(n.children[p[0]], p[1..], k - 1);
      assert p[..k][1..] == p[1..][..k - 1];
    }
  }

  /** Child `i` is the first with the field. */
  predicate IsFirstChild(n: Node, f: Field, i: nat) {
    i < |n.children| && n.children[i].field == Some(f) && forall j :: 0 <= j < i ==> n.children[j].field != Some(f)
  }

  /** `child_by_field_name`: the first child with the field. */
  function ChildByField(n: Node, f: Field): (i: Option<nat>)
    ensures i.Some? ==> i.value < |n.children| && n.children[i.value].field == Some(f)
    ensures forall k: nat :: i == Some(k) <==> IsFirstChild(n, f, k)
  {
    ChildByFieldFrom(n, f, 0)
  }

  function ChildByFieldFrom(n: Node, f: Field, from: nat): (i: Option<nat>)
    decreases |n.children| - from
    ensures i.Some? ==> from <= i.value < |n.children| && n.children[i.value].field == Some(f)
                        && forall j :: from <= j < i.value ==> n.children[j].field != Some(f)
    ensures i.None? ==> forall j :: from <= j < |n.children| ==> n.children[j].field != Some(f)
  {
    if from >= |n.children| then None
    else if n.children[from].field == Some(f) then Some(from)
    else ChildByFieldFrom(n, f, from + 1)
  }
}
