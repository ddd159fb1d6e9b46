/** Syntax errors of a parse tree (crates/codequery-parse/src/diagnostics.rs). */
module Diagnostics {
  import opened Wrappers
  import opened SyntaxTree

  datatype Message = UnexpectedSyntax | Missing(kind: Kind)

  datatype Diagnostic = Diagnostic(line: nat, column: nat, endLine: nat, endColumn: nat, message: Message)

  /** An ERROR or MISSING node. */
  predicate Faulty(n: Node) { n.isError || n.isMissing }

  function DiagnosticOf(n: Node): Diagnostic {
    Diagnostic(n.startRow + 1, n.startColumn, n.endRow + 1, n.endColumn,
               if n.isError then UnexpectedSyntax else Missing(n.kind))
  }

  /** Every path of `paths`, taken below child `i`. */
  function Under(i: nat, paths: seq<NodePath>): (r: seq<NodePath>)
    ensures |r| == |paths|
    ensures forall k :: 0 <= k < |r| ==> r[k] == [i] + paths[k]
  {
    seq(|paths|, k requires 0 <= k < |paths| => [i] + paths[k])
  }

  /** The nodes reported by the pruned walk, in order. */
  function Reported(n: Node): seq<NodePath>
    decreases n, 1
  {
    if Faulty(n) then [[]]
    else if n.hasError then ReportedBelow(n, |n.children|)
    else []
  }

  function ReportedBelow(n: Node, count: nat): seq<NodePath>
    requires count <= |n.children|
    decreases n, 0, count
  {
    if count == 0 then []
    else ReportedBelow(n, count - 1) + Under(count - 1, Reported(n.children[count - 1]))
  }

  /** The walk that looks everywhere: the topmost faulty nodes, in order. */
  function Topmost(n: Node): seq<NodePath>
    decreases n, 1
  {
    if Faulty(n) then [[]] else TopmostBelow(n, |n.children|)
  }

  function TopmostBelow(n: Node, count: nat): seq<NodePath>
    requires count <= |n.children|
    decreases n, 0, count
  {
    if count == 0 then []
    else TopmostBelow(n, count - 1) + Under(count - 1, Topmost(n.children[count - 1]))
  }

  ghost predicate AllReach(n: Node, paths: seq<NodePath>) {
    forall k :: 0 <= k < |paths| ==> Reaches(n, paths[k])
  }

  /** The diagnostics of some nodes of a tree. */
  ghost function DiagnosticsAt(n: Node, paths: seq<NodePath>): seq<Diagnostic>
    requires AllReach(n, paths)
  {
    seq(|paths|, k requires 0 <= k < |paths| => DiagnosticOf(NodeAt(n, paths[k])))
  }

  lemma {:induction false} ReportedReach(n: Node)
    decreases n, 1
    ensures AllReach(n, Reported(n))
  {
    if !Faulty(n) && n.hasError {
      ReportedBelowReach(n, |n.children|);
    }
  }

  lemma {:induction false} ReportedBelowReach(n: Node, count: nat)
    requires count <= |n.children|
    decreases n, 0, count
    ensures AllReach(n, ReportedBelow(n, count))
  {
    if count == 0 {
    } else {
      ReportedBelowReach(n, count - 1);
      ReportedReach(n.children[count - 1]);
      UnderReaches(n, count - 1, Reported(n.children[count - 1]));
    }
  }

  lemma UnderReaches(n: Node, i: nat, paths: seq<NodePath>)
    requires i < |n.children| && AllReach(n.children[i], paths)
    ensures AllReach(n, Under(i, paths))
    ensures DiagnosticsAt(n, Under(i, paths)) == DiagnosticsAt(n.children[i], paths)
  {
    forall k | 0 <= k < |paths|
      ensures Reaches(n, Under(i, paths)[k]) && NodeAt(n, Under(i, paths)[k]) == NodeAt(n.children[i], paths[k])
    {
      assert Under(i, paths)[k][1..] == paths[k];
    }
  }

  lemma DiagnosticsAppend(n: Node, a: seq<NodePath>, b: seq<NodePath>)
    requires AllReach(n, a) && AllReach(n, b)
    ensures AllReach(n, a + b) && DiagnosticsAt(n, a + b) == DiagnosticsAt(n, a) + DiagnosticsAt(n, b)
  {
  }

  /** `collect_errors`: pushes the diagnostics of the pruned walk. */
  method CollectErrors(node: Node, diagnostics: seq<Diagnostic>) returns (diagnostics': seq<Diagnostic>)
    decreases node
    ensures AllReach(node, Reported(node))
    ensures diagnostics' == diagnostics + DiagnosticsAt(node, Reported(node))
  {
    ReportedReach(node);
    if node.isError || node.isMissing {
      FaultyReport(node);
      return diagnostics + [DiagnosticOf(node)];
    }
    diagnostics' := diagnostics;
    if node.hasError {
      var i := 0;
      while i < |node.children|
        invariant 0 <= i <= |node.children|
        invariant AllReach(node, ReportedBelow(node, i))
        invariant diagnostics' == diagnostics + DiagnosticsAt(node, ReportedBelow(node, i))
      {
        diagnostics' := CollectErrors(node.children[i], diagnostics');
        NextChild(node, i, diagnostics);
        i := i + 1;
      }
    }
  }

  lemma FaultyReport(n: Node)
    requires Faulty(n)
    ensures AllReach(n, Reported(n)) && DiagnosticsAt(n, Reported(n)) == [DiagnosticOf(n)]
  {
  }

  lemma NextChild(n: Node, i: nat, before: seq<Diagnostic>)
    requires i < |n.children|
    requires AllReach(n, ReportedBelow(n, i)) && AllReach(n.children[i], Reported(n.children[i]))
    ensures AllReach(n, ReportedBelow(n, i + 1))
    ensures before + DiagnosticsAt(n, ReportedBelow(n, i)) + DiagnosticsAt(n.children[i], Reported(n.children[i]))
         == before + DiagnosticsAt(n, ReportedBelow(n, i + 1))
  {
    var last := Reported(n.children[i]);
    UnderReaches(n, i, last);
    DiagnosticsAppend(n, ReportedBelow(n, i), Under(i, last));
  }

  /** The diagnostic has the span of its node, with 1-based lines, and tells errors from missing nodes. */
  predicate Says(n: Node, d: Diagnostic) {
    && d.line == n.startRow + 1 && d.column == n.startColumn
    && d.endLine == n.endRow + 1 && d.endColumn == n.endColumn
    && (n.isError ==> d.message.UnexpectedSyntax?)
    && (n.isMissing && !n.isError ==> d.message == Missing(n.kind))
  }

  /** `extract_syntax_errors`: a diagnostic for each extracted node, in order, that says what it is. */
  method ExtractSyntaxErrors(root: Node) returns (diagnostics: seq<Diagnostic>)
    ensures AllReach(root, Extracted(root)) && diagnostics == DiagnosticsAt(root, Extracted(root))
    ensures |diagnostics| == |Extracted(root)|
    ensures forall k :: 0 <= k < |diagnostics| ==> Fault(root, Extracted(root)[k])
                                                   && Says(NodeAt(root, Extracted(root)[k]), diagnostics[k])
  {
    ReportedReach(root);
    if !root.hasError {
      return [];
    }
    diagnostics := CollectErrors(root, []);
    forall k | 0 <= k < |diagnostics|
      ensures Fault(root, Extracted(root)[k]) && Says(NodeAt(root, Extracted(root)[k]), diagnostics[k])
    {
      assert Reported(root)[k] in Reported(root);
      ReportedExactly(root, Reported(root)[k]);
    }
  }

  // What the walks report, without saying how they walk.

  /** An ERROR or MISSING node of the tree. */
  predicate Fault(n: Node, p: NodePath) {
    Reaches(n, p) && (NodeAt(n, p).isError || NodeAt(n, p).isMissing)
  }

  /** A faulty node with no faulty node above it. */
  ghost predicate TopFault(n: Node, p: NodePath) {
    Fault(n, p) && forall k :: 0 <= k < |p| ==> !Fault(n, p[..k])
  }

  lemma FaultBelow(n: Node, p: NodePath)
    requires p != []
    ensures Fault(n, p) <==> p[0] < |n.children| && Fault(n.children[p[0]], p[1..])
  {
  }

  lemma TopFaultBelow(n: Node, p: NodePath)
    requires p != [] && !Faulty(n)
    ensures TopFault(n, p) <==> p[0] < |n.children| && TopFault(n.children[p[0]], p[1..])
  {
    FaultBelow(n, p);
    if Fault(n, p) {
      var c := n.children[p[0]];
      assert forall k :: 0 < k <= |p| ==> p[..k][1..] == p[1..][..k - 1];
      forall k | 0 <= k < |p|
        ensures k == 0 ==> !Fault(n, p[..k])
        ensures k > 0 ==> (Fault(n, p[..k]) <==> Fault(c, p[1..][..k - 1]))
      {
        if k > 0 {
          FaultBelow(n, p[..k]);
        }
      }
      assert forall k :: 0 <= k < |p| - 1 ==> p[1..][..k] == p[..k + 1][1..];
      if TopFault(n, p) {
        forall k | 0 <= k < |p| - 1
          ensures !Fault(c, p[1..][..k])
        {
          assert !Fault(n, p[..k + 1]);
        }
      }
    }
  }

  /** The full walk lists exactly the topmost faulty nodes. */
  lemma {:induction false} TopmostExactly(n: Node, p: NodePath)
    decreases n, 1
    ensures p in Topmost(n) <==> TopFault(n, p)
  {
    if Faulty(n) {
      if p == [] {
        assert Topmost(n)[0] == p;
      } else {
        assert Fault(n, p[..0]);
      }
    } else {
      TopmostBelowExactly(n, |n.children|, p);
      if p != [] {
        TopFaultBelow(n, p);
      }
    }
  }

  lemma {:induction false} TopmostBelowExactly(n: Node, count: nat, p: NodePath)
    requires count <= |n.children|
    decreases n, 0, count
    ensures p in TopmostBelow(n, count) <==> p != [] && p[0] < count && TopFault(n.children[p[0]], p[1..])
  {
    if count == 0 {
    } else {
      TopmostBelowExactly(n, count - 1, p);
      var c := n.children[count - 1];
      var last := Under(count - 1, Topmost(c));
      if p != [] {
        TopmostExactly(c, p[1..]);
        UnderMember(count - 1, Topmost(c), p);
      }
      assert p in TopmostBelow(n, count) <==> p in TopmostBelow(n, count - 1) || p in last;
    }
  }

  lemma UnderMember(i: nat, paths: seq<NodePath>, p: NodePath)
    requires p != []
    ensures p in Under(i, paths) <==> p[0] == i && p[1..] in paths
  {
    var r := Under(i, paths);
    if p in r {
      var k :| 0 <= k < |r| && r[k] == p;
      assert p[1..] == paths[k];
    }
    if p[0] == i && p[1..] in paths {
      var k :| 0 <= k < |paths| && paths[k] == p[1..];
      assert r[k] == p;
    }
  }

  /** `p` comes before `q` in the document, and neither lies below the other. */
  predicate Before(p: NodePath, q: NodePath) {
    p != [] && q != [] && (p[0] < q[0] || (p[0] == q[0] && Before(p[1..], q[1..])))
  }

  lemma {:induction false} BeforeIsApart(p: NodePath, q: NodePath)
    requires Before(p, q)
    ensures !(p <= q) && !(q <= p)
  {
    if p[0] == q[0] {
      assert p <= q ==> p[1..] <= q[1..];
      assert q <= p ==> q[1..] <= p[1..];
      BeforeIsApart(p[1..], q[1..]);
    }
  }

  predicate InDocumentOrder(paths: seq<NodePath>) {
    forall i, j :: 0 <= i < j < |paths| ==> Before(paths[i], paths[j])
  }

  lemma {:induction false} TopmostOrdered(n: Node)
    decreases n, 1
    ensures InDocumentOrder(Topmost(n))
  {
    if Faulty(n) {
    } else {
      TopmostBelowOrdered(n, |n.children|);
    }
  }

  lemma {:induction false} TopmostBelowOrdered(n: Node, count: nat)
    requires count <= |n.children|
    decreases n, 0, count
    ensures InDocumentOrder(TopmostBelow(n, count))
  {
    if count == 0 {
    } else {
      TopmostBelowOrdered(n, count - 1);
      TopmostOrdered(n.children[count - 1]);
      var front, paths := TopmostBelow(n, count - 1), Topmost(n.children[count - 1]);
      var last := Under(count - 1, paths);
      forall i, j | 0 <= i < j < |front + last|
        ensures Before((front + last)[i], (front + last)[j])
      {
        if i < |front| {
          assert front[i] in front;
          TopmostBelowExactly(n, count - 1, front[i]);
        } else {
          var a, b := i - |front|, j - |front|;
          assert last[a][1..] == paths[a] && last[b][1..] == paths[b];
        }
      }
    }
  }

  /** `has_error` as tree-sitter defines it: the subtree holds an ERROR or MISSING node. */
  ghost predicate HonestFlags(n: Node) {
    forall p :: Reaches(n, p) ==> (NodeAt(n, p).hasError <==> exists q :: Fault(NodeAt(n, p), q))
  }

  /** The flag of a node on the way to a topmost faulty node. */
  ghost predicate FlaggedAbove(n: Node, p: NodePath)
    requires Reaches(n, p)
  {
    forall k :: 0 <= k < |p| ==> Reaches(n, p[..k]) && NodeAt(n, p[..k]).hasError
  }

  lemma FlaggedAboveBelow(n: Node, p: NodePath)
    requires p != [] && Reaches(n, p)
    ensures FlaggedAbove(n, p) <==> n.hasError && FlaggedAbove(n.children[p[0]], p[1..])
  {
    var c := n.children[p[0]];
    forall k | 0 <= k < |p|
      ensures Reaches(n, p[..k]) && (k > 0 ==>
                                       Reaches(c, p[1..][..k - 1]) && NodeAt(n, p[..k]) == NodeAt(c, p[1..][..k - 1]))
    {
      PrefixReaches(n, p, k);
      if k > 0 {
        assert p[..k][1..] == p[1..][..k - 1];
      }
    }
    if FlaggedAbove(n, p) {
      assert p[..0] == [];
      forall k | 0 <= k < |p| - 1
        ensures Reaches(c, p[1..][..k]) && NodeAt(c, p[1..][..k]).hasError
      {
        assert NodeAt(n, p[..k + 1]).hasError;
      }
    }
  }

  /** The pruned walk reports a node exactly when the full walk does and every node above it is flagged. */
  lemma {:induction false} ReportedExactly(n: Node, p: NodePath)
    decreases n, 1
    ensures p in Reported(n) <==> TopFault(n, p) && FlaggedAbove(n, p)
  {
    if Faulty(n) {
      if p == [] {
        assert Reported(n)[0] == p;
      } else {
        assert Fault(n, p[..0]);
      }
    } else {
      if n.hasError {
        ReportedBelowExactly(n, |n.children|, p);
      }
      if p != [] {
        TopFaultBelow(n, p);
        if Reaches(n, p) {
          FlaggedAboveBelow(n, p);
        }
      }
    }
  }

  lemma {:induction false} ReportedBelowExactly(n: Node, count: nat, p: NodePath)
    requires count <= |n.children|
    decreases n, 0, count
    ensures p in ReportedBelow(n, count)
       <==> p != [] && p[0] < count && TopFault(n.children[p[0]], p[1..]) && FlaggedAbove(n.children[p[0]], p[1..])
  {
    if count == 0 {
    } else {
      ReportedBelowExactly(n, count - 1, p);
      var c := n.children[count - 1];
      var last := Under(count - 1, Reported(c));
      if p != [] {
        ReportedExactly(c, p[1..]);
        UnderMember(count - 1, Reported(c), p);
      }
      assert p in ReportedBelow(n, count) <==> p in ReportedBelow(n, count - 1) || p in last;
    }
  }

  /** The pruned walk skips whole subtrees only: it reports the full list or misses some node of it. */
  lemma {:induction false} PrunedEqualsFullBelow(n: Node)
    requires forall p :: TopFault(n, p) ==> FlaggedAbove(n, p)
    decreases n, 1
    ensures Reported(n) == Topmost(n)
  {
    if Faulty(n) {
    } else {
      if n.hasError {
        PrunedChildren(n, |n.children|);
      } else if Topmost(n) != [] {
        var p := Topmost(n)[0];
        TopmostExactly(n, p);
        if p != [] {
          FlaggedAboveBelow(n, p);
        }
        assert false;
      }
    }
  }

  lemma {:induction false} PrunedChildren(n: Node, count: nat)
    requires !Faulty(n) && count <= |n.children|
    requires forall p :: TopFault(n, p) ==> FlaggedAbove(n, p)
    decreases n, 0, count
    ensures ReportedBelow(n, count) == TopmostBelow(n, count)
  {
    if count == 0 {
    } else {
      var c := n.children[count - 1];
      forall p | TopFault(c, p)
        ensures FlaggedAbove(c, p)
      {
        var q := [count - 1] + p;
        assert q[1..] == p;
        TopFaultBelow(n, q);
        FlaggedAboveBelow(n, q);
      }
      PrunedChildren(n, count - 1);
      PrunedEqualsFullBelow(c);
    }
  }

  /** What `extract_syntax_errors` reports. */
  function Extracted(root: Node): seq<NodePath> {
    if root.hasError then Reported(root) else []
  }

  /** The pruned extraction equals the full walk exactly when the root and every node above a topmost
      faulty node are flagged. */
  lemma ExtractionCompleteIff(root: Node)
    ensures Extracted(root) == Topmost(root)
       <==> forall p :: TopFault(root, p) ==> root.hasError && FlaggedAbove(root, p)
  {
    if Extracted(root) == Topmost(root) {
      forall p | TopFault(root, p)
        ensures root.hasError && FlaggedAbove(root, p)
      {
        TopmostExactly(root, p);
        ReportedExactly(root, p);
      }
    }
    if forall p :: TopFault(root, p) ==> root.hasError && FlaggedAbove(root, p) {
      PrunedEqualsFullBelow(root);
      if Topmost(root) != [] {
        TopmostExactly(root, Topmost(root)[0]);
      }
    }
  }

  /** With honest flags nothing is lost. */
  lemma HonestExtraction(root: Node)
    requires HonestFlags(root)
    ensures Extracted(root) == Topmost(root)
  {
    forall p | TopFault(root, p)
      ensures root.hasError && FlaggedAbove(root, p)
    {
      assert NodeAt(root, []) == root && Fault(NodeAt(root, []), p);
      forall k | 0 <= k < |p|
        ensures Reaches(root, p[..k]) && NodeAt(root, p[..k]).hasError
      {
        PrefixReaches(root, p, k);
        FaultSplit(root, p, k);
      }
    }
    ExtractionCompleteIff(root);
  }

  lemma {:induction false} FaultSplit(n: Node, p: NodePath, k: nat)
    requires Fault(n, p) && k <= |p| && Reaches(n, p[..k])
    ensures Fault(NodeAt(n, p[..k]), p[k..])
  {
    if k > 0 {
      assert p[..k][1..] == p[1..][..k - 1] && p[k..] == p[1..][k - 1..];
      FaultSplit(n.children[p[0]], p[1..], k - 1);
    } else {
      assert p[k..] == p;
    }
  }

  /** Every faulty node has exactly one reported node among itself and the nodes above it, and the
      reported nodes are in document order with none below another. */
  lemma FaultsCoveredOnce(root: Node, q: NodePath)
    requires HonestFlags(root) && Fault(root, q)
    ensures InDocumentOrder(Extracted(root))
    ensures exists i :: 0 <= i < |Extracted(root)| && Extracted(root)[i] <= q
    ensures forall i, j | 0 <= i < |Extracted(root)| && 0 <= j < |Extracted(root)| ::
              Extracted(root)[i] <= q && Extracted(root)[j] <= q ==> i == j
  {
    HonestExtraction(root);
    TopmostOrdered(root);
    var k := FirstFault(root, q, 0);
    TopmostExactly(root, q[..k]);
    var paths := Extracted(root);
    forall i, j | 0 <= i < |paths| && 0 <= j < |paths| && paths[i] <= q && paths[j] <= q
      ensures i == j
    {
      PrefixesComparable(paths[i], paths[j], q);
      if i < j {
        BeforeIsApart(paths[i], paths[j]);
      } else if j < i {
        BeforeIsApart(paths[j], paths[i]);
      }
    }
  }

  lemma PrefixesComparable(a: NodePath, b: NodePath, q: NodePath)
    requires a <= q && b <= q
    ensures a <= b || b <= a
  {
    assert a == q[..|a|] && b == q[..|b|];
  }

  lemma FirstFault(n: Node, q: NodePath, from: nat) returns (k: nat)
    requires Fault(n, q) && from <= |q|
    requires forall i :: 0 <= i < from ==> !Fault(n, q[..i])
    decreases |q| - from
    ensures k <= |q| && TopFault(n, q[..k])
  {
    assert q[..|q|] == q;
    if Fault(n, q[..from]) {
      k := from;
      assert forall i :: 0 <= i < k ==> q[..k][..i] == q[..i];
    } else {
      k := FirstFault(n, q, from + 1);
    }
  }
}
