/** The outline and tree printers (crates/codequery-cli/src/output.rs). */
module Outline {
  import opened Sequences
  import opened Wrappers
  import opened Symbols

  // What is printed.

  function Digits(n: nat): (s: string)
    ensures s != [] && forall c :: c in s ==> '0' <= c <= '9'
  {
    if n < 10 then ['0' + n as char] else Digits(n / 10) + ['0' + (n % 10) as char]
  }

  function VisibilityText(v: Visibility): string {
    match v
    case Public => "pub"
    case Private => "priv"
    case Crate => "pub(crate)"
  }

  function Spaces(n: nat): (s: string)
    ensures |s| == n && forall c :: c in s ==> c == ' '
  {
    seq(n, i => ' ')
  }

  function Label(s: Symbol): string {
    s.name + " (" + s.kind + ", " + VisibilityText(s.visibility) + ") :" + Digits(s.line)
  }

  function FormatOutlineEntry(s: Symbol, indent: nat): string {
    Spaces(indent * 2) + Label(s)
  }

  /** The number that a string of decimal digits stands for. */
  function NumberOf(digits: string): int {
    if digits == [] then 0 else 10 * NumberOf(digits[..|digits| - 1]) + (digits[|digits| - 1] as int - '0' as int)
  }

  predicate VisibilityWord(v: Visibility, word: string) {
    word == (if v == Public then "pub" else if v == Private then "priv" else "pub(crate)")
  }

  /** The line of a symbol: two spaces for each level, its name, kind and visibility, and its line number. */
  ghost predicate IsEntry(text: string, s: Symbol, indent: nat, word: string, number: string) {
    && VisibilityWord(s.visibility, word)
    && number != [] && (forall c :: c in number ==> '0' <= c <= '9') && NumberOf(number) == s.line
    && text == Spaces(indent + indent) + (s.name + " (" + s.kind + ", " + word + ") :" + number)
  }

  lemma EntryText(s: Symbol, indent: nat)
    ensures exists word, number :: IsEntry(FormatOutlineEntry(s, indent), s, indent, word, number)
  {
    DigitsNumber(s.line);
    assert IsEntry(FormatOutlineEntry(s, indent), s, indent, VisibilityText(s.visibility), Digits(s.line));
  }

  lemma {:induction false} DigitsNumber(n: nat)
    ensures NumberOf(Digits(n)) == n
  {
    if n < 10 {
      assert Digits(n)[..0] == [];
    } else {
      DigitsNumber(n / 10);
      assert Digits(n)[..|Digits(n)| - 1] == Digits(n / 10);
    }
  }

  /** The text of a symbol and of everything below it. */
  function SymbolText(s: Symbol, indent: nat): string {
    FormatOutlineEntry(s, indent) + Below(SymbolTexts(s.children, indent + 1))
  }

  function SymbolTexts(forest: seq<Symbol>, indent: nat): (texts: seq<string>)
    ensures |texts| == |forest|
  {
    seq(|forest|, i requires 0 <= i < |forest| => SymbolText(forest[i], indent))
  }

  /** Texts, each on a new line. */
  function Below(texts: seq<string>): string {
    if texts == [] then []
    else Below(texts[..|texts| - 1]) + "\n" + texts[|texts| - 1]
  }

  function ChildrenText(forest: seq<Symbol>, indent: nat): string {
    Below(SymbolTexts(forest, indent))
  }

  lemma NextText(head: string, texts: seq<string>, i: nat)
    requires i < |texts|
    ensures head + Below(texts[..i]) + "\n" + texts[i] == head + Below(texts[..i + 1])
  {
    assert texts[..i + 1][..i] == texts[..i];
    Associative(head, Below(texts[..i]) + "\n", texts[i]);
    Associative(head, Below(texts[..i]), "\n");
  }

  method FormatOutlineSymbol(symbol: Symbol, indent: nat, output: string) returns (output': string)
    decreases symbol
    ensures output' == output + SymbolText(symbol, indent)
  {
    output' := output + FormatOutlineEntry(symbol, indent);
    ghost var head, texts := output', SymbolTexts(symbol.children, indent + 1);
    var i := 0;
    while i < |symbol.children|
      invariant 0 <= i <= |symbol.children|
      invariant output' == head + Below(texts[..i])
    {
      output' := output' + "\n";
      output' := FormatOutlineSymbol(symbol.children[i], indent + 1, output');
      NextText(head, texts, i);
      i := i + 1;
    }
    assert texts[..i] == texts;
    LastChild(output, symbol, indent);
  }

  lemma LastChild(output: string, symbol: Symbol, indent: nat)
    ensures output + FormatOutlineEntry(symbol, indent) + ChildrenText(symbol.children, indent + 1)
         == output + SymbolText(symbol, indent)
  {
    Associative(output, FormatOutlineEntry(symbol, indent), ChildrenText(symbol.children, indent + 1));
  }

  /** `format_tree_symbol` prints the same text as the outline. */
  method FormatTreeSymbol(symbol: Symbol, indent: nat, output: string) returns (output': string)
    decreases symbol
    ensures output' == output + SymbolText(symbol, indent)
  {
    output' := output + (Spaces(indent * 2) + Label(symbol));
    ghost var head, texts := output', SymbolTexts(symbol.children, indent + 1);
    var i := 0;
    while i < |symbol.children|
      invariant 0 <= i <= |symbol.children|
      invariant output' == head + Below(texts[..i])
    {
      output' := output' + "\n";
      output' := FormatTreeSymbol(symbol.children[i], indent + 1, output');
      NextText(head, texts, i);
      i := i + 1;
    }
    assert texts[..i] == texts;
    LastChild(output, symbol, indent);
  }

  /** A heading line followed by a forest: the framed outline, or one file of the tree. */
  method FormatUnderHeading(heading: string, symbols: seq<Symbol>, indent: nat) returns (content: string)
    ensures content == heading + ChildrenText(symbols, indent)
  {
    content := heading;
    ghost var texts := SymbolTexts(symbols, indent);
    var i := 0;
    while i < |symbols|
      invariant 0 <= i <= |symbols|
      invariant content == heading + Below(texts[..i])
    {
      content := content + "\n";
      content := FormatOutlineSymbol(symbols[i], indent, content);
      NextText(heading, texts, i);
      i := i + 1;
    }
    assert texts[..i] == texts;
  }

  /** `format_outline`: the metadata line, a blank line, the file's heading, and the symbols. */
  method FormatOutline(meta: string, file: string, symbols: seq<Symbol>) returns (output: string)
    ensures output == meta + "\n\n" + ("@@ " + file + " @@") + ChildrenText(symbols, 1)
  {
    var heading := "@@ " + file + " @@";
    var content := FormatUnderHeading(heading, symbols, 1);
    if content == [] {
      output := meta;
    } else {
      Associative(meta + "\n\n", heading, ChildrenText(symbols, 1));
      output := meta + "\n\n" + content;
    }
  }

  // Reading the text back.

  datatype Line = Line(depth: nat, text: string)

  datatype Tree = Tree(text: string, children: seq<Tree>)

  function SplitLines(s: string): (ls: seq<string>)
    ensures ls != []
  {
    if s == [] then [[]]
    else
      var ls := SplitLines(s[1..]);
      if s[0] == '\n' then [[]] + ls else [[s[0]] + ls[0]] + ls[1..]
  }

  function Indentation(l: string): (n: nat)
    ensures n <= |l|
  {
    if l != [] && l[0] == ' ' then 1 + Indentation(l[1..]) else 0
  }

  function ReadLine(l: string): Line {
    Line(Indentation(l) / 2, l[Indentation(l)..])
  }

  function ReadLines(ls: seq<string>): seq<Line> {
    seq(|ls|, i requires 0 <= i < |ls| => ReadLine(ls[i]))
  }

  /** The trees at `depth` at the front of `lines`, and the lines after them. */
  function Nest(lines: seq<Line>, depth: nat): (r: (seq<Tree>, seq<Line>))
    decreases |lines|
    ensures |r.1| <= |lines|
  {
    if lines == [] || lines[0].depth != depth then ([], lines)
    else
      var (children, rest) := Nest(lines[1..], depth + 1);
      var (siblings, rest') := Nest(rest, depth);
      ([Tree(lines[0].text, children)] + siblings, rest')
  }

  /** The forest printed after the first `skip` lines. */
  function Decode(content: string, skip: nat, indent: nat): seq<Tree> {
    var ls := SplitLines(content);
    if skip > |ls| then [] else Nest(ReadLines(ls[skip..]), indent).0
  }

  // What the text should say.

  function Shape(s: Symbol): Tree { Tree(Label(s), Shapes(s.children)) }

  function Shapes(forest: seq<Symbol>): seq<Tree> {
    seq(|forest|, i requires 0 <= i < |forest| => Shape(forest[i]))
  }

  /** A name that is one line and does not start with a space. */
  predicate CleanName(name: string) {
    name != [] && name[0] != ' ' && '\n' !in name
  }

  predicate Clean(forest: seq<Symbol>) {
    forall s :: s in forest ==> CleanName(s.name) && Clean(s.children)
  }

  /** The lines of a forest, parents first. */
  function TreeLines(forest: seq<Tree>, depth: nat): seq<Line> {
    if forest == [] then []
    else [Line(depth, forest[0].text)] + TreeLines(forest[0].children, depth + 1) + TreeLines(forest[1..], depth)
  }

  function ForestLines(forest: seq<Symbol>, depth: nat): seq<Line> {
    TreeLines(Shapes(forest), depth)
  }

  lemma {:induction false} NestInvertsLines(forest: seq<Tree>, depth: nat, rest: seq<Line>)
    requires rest != [] ==> rest[0].depth < depth
    ensures Nest(TreeLines(forest, depth) + rest, depth) == (forest, rest)
  {
    if forest == [] {
      assert TreeLines(forest, depth) + rest == rest;
    } else {
      var head, tail := forest[0], forest[1..];
      var after := TreeLines(tail, depth) + rest;
      FirstDepth(tail, depth, rest);
      NestInvertsLines(head.children, depth + 1, after);
      NestInvertsLines(tail, depth, rest);
      TreeLinesParts(forest, depth, rest);
      NestStep(TreeLines(forest, depth) + rest, depth, head.children, after, tail, rest);
      assert [Tree(head.text, head.children)] + tail == forest;
    }
  }

  lemma TreeLinesParts(forest: seq<Tree>, depth: nat, rest: seq<Line>)
    requires forest != []
    ensures var lines := TreeLines(forest, depth) + rest;
            lines != [] && lines[0] == Line(depth, forest[0].text) &&
            lines[1..] == TreeLines(forest[0].children, depth + 1) + (TreeLines(forest[1..], depth) + rest)
  {
  }

  lemma NestStep(lines: seq<Line>, depth: nat, children: seq<Tree>, after: seq<Line>, siblings: seq<Tree>,
                 rest: seq<Line>)
    requires lines != [] && lines[0].depth == depth
    requires Nest(lines[1..], depth + 1) == (children, after) && Nest(after, depth) == (siblings, rest)
    ensures Nest(lines, depth) == ([Tree(lines[0].text, children)] + siblings, rest)
  {
  }

  lemma FirstDepth(forest: seq<Tree>, depth: nat, rest: seq<Line>)
    requires rest != [] ==> rest[0].depth < depth
    ensures var lines := TreeLines(forest, depth) + rest; lines != [] ==> lines[0].depth <= depth
  {
    if forest == [] {
      assert TreeLines(forest, depth) + rest == rest;
    }
  }

  lemma {:induction false} TreeLinesAppend(a: seq<Tree>, b: seq<Tree>, depth: nat)
    ensures TreeLines(a + b, depth) == TreeLines(a, depth) + TreeLines(b, depth)
  {
    if a == [] {
      assert a + b == b;
    } else {
      assert (a + b)[1..] == a[1..] + b;
      TreeLinesAppend(a[1..], b, depth);
    }
  }

  lemma {:induction false} ForestLinesCount(forest: seq<Symbol>, depth: nat)
    ensures |ForestLines(forest, depth)| == |Flatten(forest)|
  {
    if forest == [] {
    } else {
      assert Shapes(forest)[1..] == Shapes(forest[1..]);
      ForestLinesCount(forest[0].children, depth + 1);
      ForestLinesCount(forest[1..], depth);
    }
  }

  // From characters to lines.

  lemma {:induction false} SplitAppend(a: string, b: string)
    ensures SplitLines(a + "\n" + b) == SplitLines(a) + SplitLines(b)
  {
    var s := a + "\n" + b;
    if a == [] {
      assert s[1..] == b;
    } else {
      assert s[1..] == a[1..] + "\n" + b;
      SplitAppend(a[1..], b);
    }
  }

  lemma {:induction false} SplitSingle(l: string)
    requires '\n' !in l
    ensures SplitLines(l) == [l]
  {
    if l == [] {
    } else {
      assert l[0] in l && (forall c :: c in l[1..] ==> c in l);
      SplitSingle(l[1..]);
      assert [l[0]] + l[1..] == l;
    }
  }

  lemma {:induction false} IndentationOfSpaces(n: nat, l: string)
    requires l != [] && l[0] != ' '
    ensures Indentation(Spaces(n) + l) == n && (Spaces(n) + l)[n..] == l
  {
    if n == 0 {
      assert Spaces(0) + l == l;
    } else {
      assert (Spaces(n) + l)[1..] == Spaces(n - 1) + l;
      IndentationOfSpaces(n - 1, l);
    }
  }

  lemma LabelIsClean(s: Symbol)
    requires CleanName(s.name)
    ensures Label(s) != [] && Label(s)[0] != ' ' && '\n' !in Label(s)
  {
    var k, v, d := s.kind, VisibilityText(s.visibility), Digits(s.line);
    assert '\n' !in k && '\n' !in v && '\n' !in d;
    assert Label(s)[0] == s.name[0];
  }

  lemma EntryLine(s: Symbol, indent: nat)
    requires CleanName(s.name)
    ensures SplitLines(FormatOutlineEntry(s, indent)) == [FormatOutlineEntry(s, indent)]
    ensures ReadLine(FormatOutlineEntry(s, indent)) == Line(indent, Label(s))
  {
    LabelIsClean(s);
    SplitSingle(FormatOutlineEntry(s, indent));
    IndentationOfSpaces(indent * 2, Label(s));
  }

  lemma NextSymbolText(before: string, forest: seq<Symbol>, indent: nat)
    requires forest != []
    ensures var front, last := forest[..|forest| - 1], forest[|forest| - 1];
            before + ChildrenText(forest, indent) ==
            before + ChildrenText(front, indent) + "\n" + FormatOutlineEntry(last, indent)
            + ChildrenText(last.children, indent + 1)
  {
    var front, last := forest[..|forest| - 1], forest[|forest| - 1];
    assert SymbolTexts(forest, indent)[..|front|] == SymbolTexts(front, indent);
    FiveParts(before, ChildrenText(front, indent), "\n", FormatOutlineEntry(last, indent),
              ChildrenText(last.children, indent + 1));
  }

  lemma FiveParts(a: string, b: string, c: string, d: string, e: string)
    ensures a + (b + c + (d + e)) == a + b + c + d + e
  {
  }

  lemma NextSymbolLines(forest: seq<Symbol>, indent: nat)
    requires forest != []
    ensures var front, last := forest[..|forest| - 1], forest[|forest| - 1];
            ForestLines(forest, indent) ==
            ForestLines(front, indent) + ([Line(indent, Label(last))] + ForestLines(last.children, indent + 1))
  {
    var front, last := forest[..|forest| - 1], forest[|forest| - 1];
    assert Shapes(forest) == Shapes(front) + [Shape(last)];
    TreeLinesAppend(Shapes(front), [Shape(last)], indent);
  }

  /** Each symbol adds its lines after the text that is there. */
  lemma {:induction false} ChildrenTextLines(before: string, forest: seq<Symbol>, indent: nat)
    requires Clean(forest)
    decreases forest
    ensures ReadLines(SplitLines(before + ChildrenText(forest, indent)))
         == ReadLines(SplitLines(before)) + ForestLines(forest, indent)
  {
    if forest == [] {
      assert before + ChildrenText(forest, indent) == before;
    } else {
      var front, last := forest[..|forest| - 1], forest[|forest| - 1];
      assert last in forest && forall s :: s in front ==> s in forest;
      var head, entry := before + ChildrenText(front, indent), FormatOutlineEntry(last, indent);
      var below := ForestLines(last.children, indent + 1);
      NextSymbolText(before, forest, indent);
      ChildrenTextLines(head + "\n" + entry, last.children, indent + 1);
      ChildrenTextLines(before, front, indent);
      AppendEntry(head, last, indent);
      NextSymbolLines(forest, indent);
      FourParts(ReadLines(SplitLines(before)), ForestLines(front, indent), [Line(indent, Label(last))], below);
    }
  }

  lemma AppendEntry(head: string, s: Symbol, indent: nat)
    requires CleanName(s.name)
    ensures ReadLines(SplitLines(head + "\n" + FormatOutlineEntry(s, indent)))
         == ReadLines(SplitLines(head)) + [Line(indent, Label(s))]
  {
    var entry := FormatOutlineEntry(s, indent);
    SplitAppend(head, entry);
    EntryLine(s, indent);
    ReadLinesAppend(SplitLines(head), [entry]);
  }

  lemma FourParts<T>(a: seq<T>, b: seq<T>, c: seq<T>, d: seq<T>)
    ensures a + b + c + d == a + (b + (c + d))
  {
  }

  lemma ReadLinesAppend(a: seq<string>, b: seq<string>)
    ensures ReadLines(a + b) == ReadLines(a) + ReadLines(b)
  {
  }

  // Main results.

  /** The printed text determines the forest of labels, whatever stands above it. */
  lemma DecodeInvertsPrinting(above: string, forest: seq<Symbol>, indent: nat)
    requires Clean(forest)
    ensures Decode(above + ChildrenText(forest, indent), |SplitLines(above)|, indent) == Shapes(forest)
  {
    PrintedLines(above, forest, indent);
    NestInvertsLines(Shapes(forest), indent, []);
    assert ForestLines(forest, indent) + [] == ForestLines(forest, indent);
  }

  /** Below what stands above there is one line for each symbol, children included. */
  lemma PrintedLines(above: string, forest: seq<Symbol>, indent: nat)
    requires Clean(forest)
    ensures var ls, skip := SplitLines(above + ChildrenText(forest, indent)), |SplitLines(above)|;
            |ls| == skip + CountRecursive(forest) && ReadLines(ls[skip..]) == ForestLines(forest, indent)
  {
    var ls, skip := SplitLines(above + ChildrenText(forest, indent)), |SplitLines(above)|;
    ChildrenTextLines(above, forest, indent);
    ForestLinesCount(forest, indent);
    FlattenLength(forest);
    assert |ReadLines(ls)| == |ls|;
    assert ReadLines(ls)[skip..] == ReadLines(ls[skip..]);
    assert ReadLines(ls)[skip..] == ForestLines(forest, indent);
  }

  /** The printed part of a symbol. */
  datatype Entry = Entry(name: string, kind: SymbolKind, visibility: Visibility, line: nat, children: seq<Entry>)

  function Entries(forest: seq<Symbol>): seq<Entry> {
    seq(|forest|, i requires 0 <= i < |forest| =>
      var s := forest[i]; Entry(s.name, s.kind, s.visibility, s.line, Entries(s.children)))
  }

  lemma LastSeparator(a: string, b: string, a': string, b': string, c: char)
    requires a + [c] + b == a' + [c] + b' && c !in b && c !in b'
    ensures a == a' && b == b'
  {
    var s := a + [c] + b;
    assert s[|a|] == c && s[|a'|] == c;
    assert forall i :: |a| < i < |s| ==> s[i] == b[i - |a| - 1];
    assert forall i :: |a'| < i < |s| ==> s[i] == b'[i - |a'| - 1];
    assert |a| == |a'|;
    assert s[..|a|] == a && s[..|a'|] == a' && s[|a| + 1..] == b && s[|a'| + 1..] == b';
  }

  lemma {:induction false} DigitsInjective(m: nat, n: nat)
    requires Digits(m) == Digits(n)
    ensures m == n
  {
    if m >= 10 && n >= 10 {
      var s := Digits(m);
      assert s[..|s| - 1] == Digits(m / 10) && s[..|s| - 1] == Digits(n / 10);
      DigitsInjective(m / 10, n / 10);
      assert s[|s| - 1] == '0' + (m % 10) as char && s[|s| - 1] == '0' + (n % 10) as char;
    }
  }

  lemma LabelParts(s: Symbol)
    ensures var v := VisibilityText(s.visibility);
            Label(s) == (((s.name + " ") + "(" + s.kind) + "," + (" " + v) + ") ") + ":" + Digits(s.line)
  {
  }

  lemma LabelInjective(s: Symbol, t: Symbol)
    requires Label(s) == Label(t)
    ensures s.name == t.name && s.kind == t.kind && s.visibility == t.visibility && s.line == t.line
  {
    LabelParts(s);
    LabelParts(t);
    PartsInjective(s.name, s.kind, VisibilityText(s.visibility), Digits(s.line),
                   t.name, t.kind, VisibilityText(t.visibility), Digits(t.line));
    DigitsInjective(s.line, t.line);
    assert "pub"[|"pub"| - 1] != "priv"[|"priv"| - 1];
  }

  /** The fields of a label, split off from the right. */
  lemma PartsInjective(n: string, k: string, v: string, d: string, n': string, k': string, v': string, d': string)
    requires (((n + " ") + "(" + k) + "," + (" " + v) + ") ") + ":" + d
          == (((n' + " ") + "(" + k') + "," + (" " + v') + ") ") + ":" + d'
    requires '(' !in k && '(' !in k' && ',' !in v && ',' !in v' && ':' !in d && ':' !in d'
    ensures n == n' && k == k' && v == v' && d == d'
  {
    var h, h' := (n + " ") + "(" + k, (n' + " ") + "(" + k';
    LastSeparator(h + "," + (" " + v) + ") ", d, h' + "," + (" " + v') + ") ", d', ':');
    DropSuffix(h + "," + (" " + v), h' + "," + (" " + v'), ") ");
    LastSeparator(h, " " + v, h', " " + v', ',');
    assert (" " + v)[1..] == v && (" " + v')[1..] == v';
    LastSeparator(n + " ", k, n' + " ", k', '(');
    DropSuffix(n, n', " ");
  }

  lemma DropSuffix(a: string, b: string, c: string)
    requires a + c == b + c
    ensures a == b
  {
    assert |a| == |b|;
    assert (a + c)[..|a|] == a && (b + c)[..|b|] == b;
  }

  lemma {:induction false} ShapesInjective(a: seq<Symbol>, b: seq<Symbol>)
    requires Shapes(a) == Shapes(b)
    decreases a
    ensures Entries(a) == Entries(b)
  {
    assert |a| == |Shapes(a)| == |Shapes(b)| == |b|;
    forall i | 0 <= i < |a|
      ensures Entries(a)[i] == Entries(b)[i]
    {
      assert Shapes(a)[i] == Shape(a[i]) && Shapes(b)[i] == Shape(b[i]);
      LabelInjective(a[i], b[i]);
      ShapesInjective(a[i].children, b[i].children);
    }
  }

  /** Two forests with the same printed text agree on names, kinds, visibilities, lines and nesting. */
  lemma PrintingIsInjective(above: string, a: seq<Symbol>, b: seq<Symbol>, indent: nat)
    requires Clean(a) && Clean(b)
    requires above + ChildrenText(a, indent) == above + ChildrenText(b, indent)
    ensures Entries(a) == Entries(b)
  {
    DecodeInvertsPrinting(above, a, indent);
    DecodeInvertsPrinting(above, b, indent);
    ShapesInjective(a, b);
  }
}
