/**
 Dumps of a tree of int keys and values: write_node writes one node as a
 `key,value,color` line, write_int_tree_inorder writes every node that way in
 key order, and print_tree_values draws the values sideways, right subtree
 first, indented by depth. A dump is modelled as the text written to the stream.
 */
module NodeDump {
  import opened Options
  import opened Decimal
  import opened CStrings
  import opened Lines
  import Pairs

  /** print_tree_values indents each level of the tree by this many spaces. */
  const IndentStep: nat := 4

  datatype Color = Red | Black

  /** A tree of rbtree nodes with int keys and values; Nil is a NULL child. */
  datatype Tree = Nil | Node(left: Tree, key: int, value: int, color: Color, right: Tree)

  /** What a dump shows of one node. */
  datatype Entry = Entry(key: int, value: int, color: Color)

  /** The nodes of `t` in order: left subtree, the node, right subtree. */
  function Entries(t: Tree): seq<Entry>
  {
    match t
    case Nil => []
    case Node(l, k, v, c, r) => Entries(l) + [Entry(k, v, c)] + Entries(r)
  }

  /** The tail write_node puts after the value. */
  function ColorSuffix(c: Color): string
  {
    if c == Black then ",b\n" else ",r\n"
  }

  /** The line write_node writes for a node whose key and value convert to `key` and `value`. */
  function NodeText(key: string, value: string, c: Color): string
  {
    key + "," + value + ColorSuffix(c)
  }

  /**
   write_node: the line is built with strcpy and strcat in a buffer of
   strlen(key) + strlen(value) + 5 chars, which it fills exactly (its
   terminating NUL included), and the C string left there is what is written.
   */
  method WriteNode(n: Tree, keyToString: int -> string, valueToString: int -> string) returns (line: string)
    requires n.Node?
    requires '\0' !in keyToString(n.key) && '\0' !in valueToString(n.value)
    ensures line == NodeText(keyToString(n.key), valueToString(n.value), n.color)
    ensures |line| + 1 == |keyToString(n.key)| + |valueToString(n.value)| + 5
  {
    var color := ColorSuffix(n.color);
    var key := keyToString(n.key);
    var value := valueToString(n.value);
    var strNode := new char[|key| + |value| + 5];
    StrCpy(strNode, key);
    StrCat(strNode, ",");
    StrCat(strNode, value);
    StrCat(strNode, color);
    line := CStr(strNode[..]);
  }

  /** The line write_node writes for a node of the int tree. */
  function NodeLine(e: Entry): string
  {
    NodeText(IntToString(e.key), IntToString(e.value), e.color)
  }

  /** A node line is a single line, and it fits write_node's buffer with its NUL. */
  lemma {:induction false} NodeLineIsLine(e: Entry)
    ensures IsLine(NodeLine(e))
    ensures |NodeLine(e)| + 1 == |IntToString(e.key)| + |IntToString(e.value)| + 5
  {
    var ks, vs := IntToString(e.key), IntToString(e.value);
    var body := ks + "," + vs + "," + [if e.color == Black then 'b' else 'r'];
    assert '\n' !in body by {
      IntToStringHasNo(e.key, '\n');
      IntToStringHasNo(e.value, '\n');
    }
    assert NodeLine(e) == body + "\n";
    EndedLine(body);
  }

  /**
   The key and value open a node line in the key/value pair format: a
   `%d,%d` scan of the line stores the node's key and value and stops at the
   comma before the color.
   */
  lemma {:induction false} NodeLineScansAsPair(e: Entry)
    ensures Pairs.ScanPair(NodeLine(e), 0)
         == Pairs.PairScan(Some(e.key), Some(e.value), |IntToString(e.key)| + 1 + |IntToString(e.value)|)
  {
    var t := NodeLine(e);
    var pair := IntToString(e.key) + "," + IntToString(e.value);
    assert t == pair + ColorSuffix(e.color);
    Pairs.AtStart(t);
    AtAppend(t, 0, pair, ColorSuffix(e.color));
    Pairs.ScanPairOfPair(t, 0, Pairs.IntKeyValue(e.key, e.value));
  }

  /** The lines of several nodes, in the same order. */
  function NodeLines(es: seq<Entry>): (ls: seq<string>)
    ensures |ls| == |es|
    decreases |es|
  {
    if es == [] then [] else [NodeLine(es[0])] + NodeLines(es[1..])
  }

  lemma {:induction false} NodeLinesAppend(a: seq<Entry>, b: seq<Entry>)
    ensures NodeLines(a + b) == NodeLines(a) + NodeLines(b)
    decreases |a|
  {
    if a == [] {
      assert a + b == b;
    } else {
      assert (a + b)[1..] == a[1..] + b;
      NodeLinesAppend(a[1..], b);
    }
  }

  /** Each of the lines is the line of the node at the same place. */
  lemma {:induction false} NodeLinesAt(es: seq<Entry>, i: nat)
    requires i < |es|
    ensures NodeLines(es)[i] == NodeLine(es[i])
    decreases i
  {
    if i > 0 {
      NodeLinesAt(es[1..], i - 1);
    }
  }

  /** Everything write_int_tree_inorder writes for `t`. */
  function InorderText(t: Tree): string
  {
    match t
    case Nil => []
    case Node(l, k, v, c, r) => InorderText(l) + NodeLine(Entry(k, v, c)) + InorderText(r)
  }

  /**
   write_int_tree_inorder: the left subtree, then the node through write_node
   with void_int_to_string for its key and value, then the right subtree.
   */
  method WriteIntTreeInorder(t: Tree) returns (out: string)
    ensures out == InorderText(t)
    decreases t
  {
    out := [];
    if t.Nil? {
      return;
    }
    if t.left != Nil {
      out := WriteIntTreeInorder(t.left);
    }
    IntToStringHasNo(t.key, '\0');
    IntToStringHasNo(t.value, '\0');
    var line := WriteNode(t, IntToString, IntToString);
    out := out + line;
    if t.right != Nil {
      var rest := WriteIntTreeInorder(t.right);
      out := out + rest;
    }
  }

  lemma {:induction false} InorderTextIsLines(t: Tree)
    ensures InorderText(t) == Concat(NodeLines(Entries(t)))
  {
    match t
    case Nil =>
    case Node(l, k, v, c, r) =>
      var e := Entry(k, v, c);
      var left, right := Entries(l), Entries(r);
      InorderTextIsLines(l);
      InorderTextIsLines(r);
      var ls, ms, rs := NodeLines(left), [NodeLine(e)], NodeLines(right);
      NodeLinesAppend(left + [e], right);
      NodeLinesAppend(left, [e]);
      assert NodeLines([e]) == [NodeLine(e)] + NodeLines([]);
      assert NodeLines(Entries(t)) == ls + ms + rs;
      ConcatAppend(ls + ms, rs);
      ConcatAppend(ls, ms);
      assert Concat(ms) == NodeLine(e);
  }

  /** The in-order dump has one line per node, each node's line, in left-node-right order. */
  lemma {:induction false} InorderOneLinePerNode(t: Tree)
    ensures SplitLines(InorderText(t)) == NodeLines(Entries(t))
  {
    var ls := NodeLines(Entries(t));
    forall i | 0 <= i < |ls|
      ensures IsLine(ls[i])
    {
      NodeLinesAt(Entries(t), i);
      NodeLineIsLine(Entries(t)[i]);
    }
    InorderTextIsLines(t);
    SplitConcat(ls);
  }

  /** Each key is above every key of its left subtree and below every key of its right subtree. */
  predicate IsSearchTree(t: Tree)
  {
    match t
    case Nil => true
    case Node(l, k, _, _, r) =>
      && IsSearchTree(l) && IsSearchTree(r)
      && (forall e :: e in Entries(l) ==> e.key < k)
      && (forall e :: e in Entries(r) ==> k < e.key)
  }

  predicate KeysAscending(es: seq<Entry>)
  {
    forall i, j :: 0 <= i < j < |es| ==> es[i].key < es[j].key
  }

  lemma {:induction false} AscendingParts(a: seq<Entry>, e: Entry, b: seq<Entry>)
    requires KeysAscending(a + [e] + b)
    ensures KeysAscending(a) && KeysAscending(b)
    ensures forall x :: x in a ==> x.key < e.key
    ensures forall x :: x in b ==> e.key < x.key
  {
    var s := a + [e] + b;
    assert s[|a|] == e;
    forall i, j | 0 <= i < j < |a|
      ensures a[i].key < a[j].key
    {
      assert s[i] == a[i] && s[j] == a[j];
    }
    forall i, j | 0 <= i < j < |b|
      ensures b[i].key < b[j].key
    {
      assert s[|a| + 1 + i] == b[i] && s[|a| + 1 + j] == b[j];
    }
    forall x | x in a
      ensures x.key < e.key
    {
      var i :| 0 <= i < |a| && a[i] == x;
      assert s[i] == x;
    }
    forall x | x in b
      ensures e.key < x.key
    {
      var i :| 0 <= i < |b| && b[i] == x;
      assert s[|a| + 1 + i] == x;
    }
  }

  lemma {:induction false} AscendingJoin(a: seq<Entry>, e: Entry, b: seq<Entry>)
    requires KeysAscending(a) && KeysAscending(b)
    requires forall x :: x in a ==> x.key < e.key
    requires forall x :: x in b ==> e.key < x.key
    ensures KeysAscending(a + [e] + b)
  {
    var s := a + [e] + b;
    forall i, j | 0 <= i < j < |s|
      ensures s[i].key < s[j].key
    {
      if i < |a| {
        assert s[i] in a;
      }
      if |a| < j {
        assert s[j] == b[j - |a| - 1];
        assert s[j] in b;
      }
      if |a| < i {
        assert s[i] == b[i - |a| - 1];
      }
    }
  }

  /**
   A tree is a search tree exactly when its in-order dump lists the keys in
   strictly ascending order, which is the order compare_int ranks them in.
   */
  lemma {:induction false} SearchTreeIffAscending(t: Tree)
    ensures IsSearchTree(t) <==> KeysAscending(Entries(t))
  {
    match t
    case Nil =>
    case Node(l, k, v, c, r) =>
      var e := Entry(k, v, c);
      SearchTreeIffAscending(l);
      SearchTreeIffAscending(r);
      if IsSearchTree(t) {
        AscendingJoin(Entries(l), e, Entries(r));
      }
      if KeysAscending(Entries(t)) {
        AscendingParts(Entries(l), e, Entries(r));
      }
  }

  /** The line print_tree_values writes for a value: a red node's value is drawn between angle brackets. */
  function ValueText(v: int, c: Color): string
  {
    if c == Black then IntToString(v) + "\n" else "<" + IntToString(v) + ">\n"
  }

  /** `n` spaces; none when `n` is not positive. */
  function Spaces(n: int): (s: string)
    ensures |s| == if n < 0 then 0 else n
    ensures forall i :: 0 <= i < |s| ==> s[i] == ' '
  {
    if n <= 0 then [] else Spaces(n - 1) + " "
  }

  /** A value line drawn at `indent`. */
  function IndentedValue(indent: int, v: int, c: Color): string
  {
    Spaces(indent) + ValueText(v, c)
  }

  /** A value line is a single line: its spaces, then the value, bracketed when red. */
  lemma {:induction false} IndentedValueIsLine(indent: int, v: int, c: Color)
    ensures IsLine(IndentedValue(indent, v, c))
  {
    var pad, vs := Spaces(indent), IntToString(v);
    assert '\n' !in pad;
    IntToStringHasNo(v, '\n');
    if c == Black {
      assert ValueText(v, c) == vs + "\n";
      assert IndentedValue(indent, v, c) == (pad + vs) + "\n";
      EndedLine(pad + vs);
    } else {
      var body := pad + "<" + vs + ">";
      assert '\n' !in body;
      assert ValueText(v, c) == "<" + vs + ">\n";
      assert IndentedValue(indent, v, c) == body + "\n";
      EndedLine(body);
    }
  }

  /** Everything print_tree_values writes for `t` at `indent`. */
  function PrintText(t: Tree, indent: int): string
  {
    match t
    case Nil => []
    case Node(l, _, v, c, r) =>
      PrintText(r, indent + IndentStep) + IndentedValue(indent, v, c) + PrintText(l, indent + IndentStep)
  }

  /**
   print_tree_values: the right subtree one level deeper, then `indent`
   spaces and the node's value, then the left subtree one level deeper.
   */
  method PrintTreeValues(t: Tree, indent: int) returns (out: string)
    ensures out == PrintText(t, indent)
    decreases t
  {
    out := [];
    if t.Nil? {
      return;
    }
    if t.right != Nil {
      out := PrintTreeValues(t.right, indent + IndentStep);
    }
    var line := [];
    var i := 0;
    while i < indent
      invariant 0 <= i && (indent >= 0 ==> i <= indent) && (indent < 0 ==> i == 0)
      invariant line == Spaces(i)
    {
      line := line + " ";
      i := i + 1;
    }
    line := line + ValueText(t.value, t.color);
    assert line == IndentedValue(indent, t.value, t.color);
    var rest := [];
    if t.left != Nil {
      rest := PrintTreeValues(t.left, indent + IndentStep);
    }
    out := out + line + rest;
  }

  /** A node as print_tree_values places it: what it shows and how deep in the tree it is. */
  datatype Placed = Placed(entry: Entry, depth: nat)

  /** The nodes of `t`, whose root is at `depth`, in the order print_tree_values visits them. */
  function Layout(t: Tree, depth: nat): seq<Placed>
  {
    match t
    case Nil => []
    case Node(l, k, v, c, r) => Layout(r, depth + 1) + [Placed(Entry(k, v, c), depth)] + Layout(l, depth + 1)
  }

  /** The line of a placed node when the root is drawn at `indent`. */
  function ValueLine(p: Placed, indent: int): string
  {
    IndentedValue(indent + IndentStep * p.depth, p.entry.value, p.entry.color)
  }

  function ValueLines(ps: seq<Placed>, indent: int): (ls: seq<string>)
    ensures |ls| == |ps|
    decreases |ps|
  {
    if ps == [] then [] else [ValueLine(ps[0], indent)] + ValueLines(ps[1..], indent)
  }

  lemma {:induction false} ValueLinesAppend(a: seq<Placed>, b: seq<Placed>, indent: int)
    ensures ValueLines(a + b, indent) == ValueLines(a, indent) + ValueLines(b, indent)
    decreases |a|
  {
    if a == [] {
      assert a + b == b;
    } else {
      assert (a + b)[1..] == a[1..] + b;
      ValueLinesAppend(a[1..], b, indent);
    }
  }

  lemma {:induction false} ValueLinesAt(ps: seq<Placed>, indent: int, i: nat)
    requires i < |ps|
    ensures ValueLines(ps, indent)[i] == ValueLine(ps[i], indent)
    decreases i
  {
    if i > 0 {
      ValueLinesAt(ps[1..], indent, i - 1);
    }
  }

  /** A value line is a single line: its spaces, then the value, bracketed when red. */
  lemma {:induction false} ValueLineIsLine(p: Placed, indent: int)
    ensures IsLine(ValueLine(p, indent))
  {
    IndentedValueIsLine(indent + IndentStep * p.depth, p.entry.value, p.entry.color);
  }

  lemma {:induction false} PrintTextIsLines(t: Tree, indent: int, depth: nat)
    ensures PrintText(t, indent + IndentStep * depth) == Concat(ValueLines(Layout(t, depth), indent))
  {
    match t
    case Nil =>
    case Node(l, k, v, c, r) =>
      var p := Placed(Entry(k, v, c), depth);
      var right, left := Layout(r, depth + 1), Layout(l, depth + 1);
      PrintTextIsLines(r, indent, depth + 1);
      PrintTextIsLines(l, indent, depth + 1);
      var rs, ms, ls := ValueLines(right, indent), [ValueLine(p, indent)], ValueLines(left, indent);
      assert indent + IndentStep * depth + IndentStep == indent + IndentStep * (depth + 1);
      ValueLinesAppend(right + [p], left, indent);
      ValueLinesAppend(right, [p], indent);
      assert ValueLines([p], indent) == [ValueLine(p, indent)] + ValueLines([], indent);
      assert ValueLines(Layout(t, depth), indent) == rs + ms + ls;
      ConcatAppend(rs + ms, ls);
      ConcatAppend(rs, ms);
      assert Concat(ms) == ValueLine(p, indent);
  }

  /**
   print_tree_values called at indent 0 writes one line per node, in the
   order Layout visits them, each node indented by IndentStep spaces per
   level of depth.
   */
  lemma {:induction false} PrintOneLinePerNode(t: Tree)
    ensures SplitLines(PrintText(t, 0)) == ValueLines(Layout(t, 0), 0)
  {
    var ls := ValueLines(Layout(t, 0), 0);
    forall i | 0 <= i < |ls|
      ensures IsLine(ls[i])
    {
      ValueLinesAt(Layout(t, 0), 0, i);
      ValueLineIsLine(Layout(t, 0)[i], 0);
    }
    PrintTextIsLines(t, 0, 0);
    SplitConcat(ls);
  }

  /** A value line: exactly IndentStep spaces per level, then the value, between brackets when red. */
  lemma {:induction false} ValueLineShape(p: Placed)
    ensures var s := ValueLine(p, 0);
      && |s| > IndentStep * p.depth
      && (forall i :: 0 <= i < IndentStep * p.depth ==> s[i] == ' ')
      && s[IndentStep * p.depth] != ' '
      && (s[IndentStep * p.depth] == '<' <==> p.entry.color == Red)
  {
    var s := ValueLine(p, 0);
    var n := IndentStep * p.depth;
    var vs := IntToString(p.entry.value);
    IntToStringHasNo(p.entry.value, '<');
    IntToStringHasNo(p.entry.value, ' ');
    IntToStringIsDecimal(p.entry.value);
    assert s[n] == ValueText(p.entry.value, p.entry.color)[0];
    if p.entry.color == Black {
      assert s[n] == vs[0];
    }
  }

  /** The entries of placed nodes, in the same order. */
  function EntriesOf(ps: seq<Placed>): (es: seq<Entry>)
    ensures |es| == |ps|
    decreases |ps|
  {
    if ps == [] then [] else [ps[0].entry] + EntriesOf(ps[1..])
  }

  lemma {:induction false} EntriesOfAppend(a: seq<Placed>, b: seq<Placed>)
    ensures EntriesOf(a + b) == EntriesOf(a) + EntriesOf(b)
    decreases |a|
  {
    if a == [] {
      assert a + b == b;
    } else {
      assert (a + b)[1..] == a[1..] + b;
      EntriesOfAppend(a[1..], b);
    }
  }

  function Reversed<T>(s: seq<T>): (r: seq<T>)
    ensures |r| == |s|
  {
    if s == [] then [] else Reversed(s[1..]) + [s[0]]
  }

  lemma {:induction false} ReversedAppend<T>(a: seq<T>, b: seq<T>)
    ensures Reversed(a + b) == Reversed(b) + Reversed(a)
    decreases |a|
  {
    if a == [] {
      assert a + b == b;
    } else {
      assert (a + b)[1..] == a[1..] + b;
      ReversedAppend(a[1..], b);
    }
  }

  /** print_tree_values visits the nodes in exactly the reverse of the in-order dump's order. */
  lemma {:induction false} LayoutReversesInorder(t: Tree, depth: nat)
    ensures EntriesOf(Layout(t, depth)) == Reversed(Entries(t))
  {
    match t
    case Nil =>
    case Node(l, k, v, c, r) =>
      var e := Entry(k, v, c);
      LayoutReversesInorder(l, depth + 1);
      LayoutReversesInorder(r, depth + 1);
      var right, left := Layout(r, depth + 1), Layout(l, depth + 1);
      EntriesOfAppend(right + [Placed(e, depth)], left);
      EntriesOfAppend(right, [Placed(e, depth)]);
      assert EntriesOf([Placed(e, depth)]) == [e] + EntriesOf([]);
      ReversedAppend(Entries(l) + [e], Entries(r));
      ReversedAppend(Entries(l), [e]);
      assert Reversed([e]) == [e] by {
        assert Reversed([e]) == Reversed([e][1..]) + [e];
        assert [e][1..] == [];
      }
  }
}
