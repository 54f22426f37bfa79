/**
 The field lists of RPC replies (api.c): a circular doubly linked list that fields are added to, that two
 lists can be spliced into, and that printing consumes.
 */
module ApiFields {
  import opened Options
  import opened ApiText

  /** How a value is printed: in quotes as it is, in quotes and escaped, or as the text that its number
      format gives; unknown types print a fixed word. */
  datatype Kind = Quoted | Escaped | Plain | Unknown

  datatype Field = Field(name: CString, kind: Kind, text: CString)

  const NULLSTR := "(null)"
  const UNKNOWN := "Unknown"

  class Node {
    const field: Field
    var prev: Node?
    var next: Node?

    constructor (field: Field)
      ensures this.field == field && prev == this && next == this
    {
      this.field := field;
      prev, next := this, this;
    }
  }

  predicate Distinct(nodes: seq<Node>) {
    forall i, j | 0 <= i < j < |nodes| :: nodes[i] != nodes[j]
  }

  /** The nodes form one ring in this order, and both directions agree. */
  ghost predicate Ring(nodes: seq<Node>)
    reads nodes
  {
    && Distinct(nodes)
    && (forall i {:trigger nodes[i].next} | 0 <= i < |nodes| - 1 :: nodes[i].next == nodes[i + 1])
    && (forall i {:trigger nodes[i].prev} | 0 < i < |nodes| :: nodes[i].prev == nodes[i - 1])
    && (nodes != [] ==> nodes[|nodes| - 1].next == nodes[0] && nodes[0].prev == nodes[|nodes| - 1])
  }

  /** The list that a root pointer stands for; null is the empty list. */
  ghost predicate IsList(root: Node?, nodes: seq<Node>)
    reads nodes
  {
    Ring(nodes) && (if root == null then nodes == [] else nodes != [] && root == nodes[0])
  }

  function FieldsOf(nodes: seq<Node>): seq<Field> {
    seq(|nodes|, i requires 0 <= i < |nodes| => nodes[i].field)
  }

  /** A missing value is shown as a quoted constant. */
  function FieldFor(name: CString, kind: Kind, data: Option<CString>): Field {
    if data.None? then Field(name, Quoted, NULLSTR) else Field(name, kind, data.value)
  }

  /** The new node goes behind the last one. */
  method AddData(root: Node?, ghost nodes: seq<Node>, name: CString, kind: Kind, data: Option<CString>)
    returns (root': Node, ghost nodes': seq<Node>)
    requires IsList(root, nodes)
    modifies nodes
    ensures exists added :: fresh(added) && nodes' == nodes + [added]
    ensures IsList(root', nodes')
    ensures FieldsOf(nodes') == FieldsOf(nodes) + [FieldFor(name, kind, data)]
  {
    var added := new Node(FieldFor(name, kind, data));
    nodes' := nodes + [added];
    if root == null {
      root' := added;
    } else {
      root' := root;
      added.prev := root.prev;
      root.prev := added;
      added.next := root;
      added.prev.next := added;
    }
  }

  ghost predicate Apart(a: seq<Node>, b: seq<Node>) {
    forall i, j | 0 <= i < |a| && 0 <= j < |b| :: a[i] != b[j]
  }

  /** Splices a second list behind the first. */
  method AddExtra(root: Node?, extra: Node?, ghost nodes: seq<Node>, ghost more: seq<Node>) returns (root': Node?)
    requires IsList(root, nodes) && IsList(extra, more) && Apart(nodes, more)
    modifies nodes, more
    ensures IsList(root', nodes + more)
    ensures FieldsOf(nodes + more) == FieldsOf(nodes) + FieldsOf(more)
  {
    root' := root;
    if root != null {
      if extra != null {
        var tmp := extra.prev;
        extra.prev := root.prev;
        root.prev.next := extra;
        tmp.next := root;
        root.prev := tmp;
      }
    } else {
      root' := extra;
    }
  }

  // ----- printing -----

  function Quote(isJson: bool): string {
    if isJson then "\"" else ""
  }

  function ValueText(f: Field, isJson: bool): string {
    match f.kind
    case Quoted => Quote(isJson) + f.text + Quote(isJson)
    case Escaped => Quote(isJson) + Escape(f.text, isJson) + Quote(isJson)
    case Plain => f.text
    case Unknown => Quote(isJson) + UNKNOWN + Quote(isJson)
  }

  function FieldText(f: Field, isJson: bool): string {
    Quote(isJson) + f.name + Quote(isJson) + (if isJson then ":" else "=") + ValueText(f, isJson)
  }

  function FieldTexts(fields: seq<Field>, isJson: bool): string {
    if fields == [] then ""
    else
      var front, last := fields[..|fields| - 1], FieldText(fields[|fields| - 1], isJson);
      if front == [] then last else FieldTexts(front, isJson) + "," + last
  }

  function Opening(isJson: bool, preCom: bool): string {
    (if preCom then "," else "") + (if isJson then "{" else "")
  }

  function Closing(isJson: bool): string {
    if isJson then "}" else "|"
  }

  method ValueOf(f: Field, isJson: bool) returns (text: string)
    ensures text == ValueText(f, isJson)
  {
    match f.kind {
      case Quoted => text := Quote(isJson) + f.text + Quote(isJson);
      case Escaped =>
        var escape := EscapeString(f.text, isJson);
        var inner := f.text;
        if escape != null {
          inner := escape[..escape.Length - 1];
        }
        text := Quote(isJson) + inner + Quote(isJson);
      case Plain => text := f.text;
      case Unknown => text := Quote(isJson) + UNKNOWN + Quote(isJson);
    }
  }

  lemma OnlyNode(nodes: seq<Node>)
    requires Ring(nodes) && nodes != []
    ensures nodes[0].next == nodes[0] <==> |nodes| == 1
  {
    if |nodes| > 1 {
      assert nodes[0] != nodes[1];
    }
  }

  /** Takes the first node out of the ring; the rest stays a ring. */
  method FreeFirst(root: Node, ghost nodes: seq<Node>) returns (root': Node?)
    requires IsList(root, nodes)
    modifies nodes
    ensures IsList(root', nodes[1..])
  {
    OnlyNode(nodes);
    if root.next == root {
      root' := null;
    } else {
      var tmp := root;
      root' := tmp.next;
      root'.prev := tmp.prev;
      root'.prev.next := root';
    }
  }

  method TextOf(f: Field, isJson: bool) returns (text: string)
    ensures text == FieldText(f, isJson)
  {
    var value := ValueOf(f, isJson);
    text := Quote(isJson) + f.name + Quote(isJson) + (if isJson then ":" else "=") + value;
  }

  /** Prints the fields in the order they were added and frees every node once, in that order. */
  method PrintData(root: Node?, ghost nodes: seq<Node>, isJson: bool, preCom: bool)
    returns (root': Node?, buf: string, ghost freed: seq<Node>)
    requires IsList(root, nodes)
    modifies nodes
    ensures root' == null && freed == nodes
    ensures buf == Opening(isJson, preCom) + FieldTexts(FieldsOf(nodes), isJson) + Closing(isJson)
  {
    hide FieldTexts, FieldText, Ring;
    root' := root;
    buf := Opening(isJson, preCom);
    freed := [];
    var first := true;
    ghost var k := 0;
    assert nodes[0..] == nodes;
    NothingPrinted(nodes, isJson);
    while root' != null
      invariant 0 <= k <= |nodes| && IsList(root', nodes[k..]) && freed == nodes[..k]
      invariant first <==> k == 0
      invariant buf == Opening(isJson, preCom) + FieldTexts(FieldsOf(nodes[..k]), isJson)
      decreases |nodes| - k
    {
      var text := TextOf(root'.field, isJson);
      if !first {
        text := "," + text;
      } else {
        first := false;
      }
      FieldTextsNext(nodes, k, isJson);
      buf := buf + text;
      assert nodes[k..][1..] == nodes[k + 1..] && nodes[..k + 1] == nodes[..k] + [nodes[k]];
      freed := freed + [root'];
      root' := FreeFirst(root', nodes[k..]);
      k := k + 1;
    }
    assert nodes[..k] == nodes;
    buf := buf + Closing(isJson);
  }

  lemma {:induction false} NothingPrinted(nodes: seq<Node>, isJson: bool)
    ensures FieldTexts(FieldsOf(nodes[..0]), isJson) == ""
  {
  }

  lemma {:induction false} FieldTextsNext(nodes: seq<Node>, k: nat, isJson: bool)
    requires k < |nodes|
    ensures FieldTexts(FieldsOf(nodes[..k + 1]), isJson) == FieldTexts(FieldsOf(nodes[..k]), isJson)
         + (if k == 0 then FieldText(nodes[k].field, isJson) else "," + FieldText(nodes[k].field, isJson))
  {
    var fields := FieldsOf(nodes[..k + 1]);
    assert fields[..k] == FieldsOf(nodes[..k]);
  }

  // ----- reading a text reply -----

  /** Reads name=value pairs up to the closing character; backslashes protect. */
  function ReadFields(s: string): Option<seq<(string, string)>>
    decreases |s|
  {
    var name := Scan({'='}, s);
    if name.end.None? then None
    else
      var value := Scan({',', '|'}, name.rest);
      if value.end.None? then None
      else if value.end.value == '|' then Some([(name.text, value.text)])
      else
        var rest := ReadFields(value.rest);
        if rest.None? then None else Some([(name.text, value.text)] + rest.value)
  }

  /** Text that needs no escaping. */
  predicate Unspecial(s: string) {
    forall c | c in s :: !Special(c, false)
  }

  /** The name is plain, and the value is either escaped or plain. */
  predicate Readable(f: Field) {
    Unspecial(f.name) && !f.kind.Unknown? && (f.kind.Escaped? || Unspecial(f.text))
  }

  function NamesAndValues(fields: seq<Field>): seq<(string, string)> {
    seq(|fields|, i requires 0 <= i < |fields| => (fields[i].name, fields[i].text))
  }

  lemma {:induction false} UnspecialIsEscaped(s: string)
    requires Unspecial(s)
    ensures Escape(s, false) == s
  {
    if s != [] {
      assert s == [s[0]] + s[1..];
      UnspecialIsEscaped(s[1..]);
    }
  }

  lemma FieldTextIsEscaped(f: Field)
    requires Readable(f)
    ensures FieldText(f, false) == Escape(f.name, false) + (['='] + Escape(f.text, false))
  {
    hide Escape;
    UnspecialIsEscaped(f.name);
    if !f.kind.Escaped? {
      UnspecialIsEscaped(f.text);
    }
    assert ValueText(f, false) == Escape(f.text, false);
  }

  /** One printed field is read back, whichever character ends it. */
  lemma FieldReadBack(f: Field, end: char, rest: string)
    requires Readable(f) && (end == ',' || end == '|')
    ensures var s := FieldText(f, false) + ([end] + rest);
      var name := Scan({'='}, s);
      name.end.Some? && name.text == f.name && Scan({',', '|'}, name.rest) == Piece(f.text, rest, Some(end))
  {
    hide Escape, FieldText, Scan;
    FieldTextIsEscaped(f);
    var name, text := Escape(f.name, false), Escape(f.text, false);
    assert FieldText(f, false) + ([end] + rest) == name + ['='] + (text + [end] + rest);
    EscapeRoundTrip({'='}, '=', f.name, text + [end] + rest);
    EscapeRoundTrip({',', '|'}, end, f.text, rest);
  }

  lemma {:induction false} FieldTextsFirst(fields: seq<Field>, isJson: bool)
    requires |fields| > 1
    ensures FieldTexts(fields, isJson) == FieldText(fields[0], isJson) + "," + FieldTexts(fields[1..], isJson)
  {
    var n := |fields| - 1;
    assert fields[1..][..n - 1] == fields[..n][1..];
    if n > 1 {
      FieldTextsFirst(fields[..n], isJson);
    }
  }

  /** What is printed for text clients can be read back, field by field and in order. */
  lemma {:induction false} PrintedFieldsReadBack(fields: seq<Field>)
    requires fields != [] && forall f | f in fields :: Readable(f)
    ensures ReadFields(FieldTexts(fields, false) + "|") == Some(NamesAndValues(fields))
    decreases |fields|
  {
    hide Scan, FieldText;
    var f := fields[0];
    if |fields| == 1 {
      assert fields[..0] == [];
      assert FieldTexts(fields, false) + "|" == FieldText(f, false) + (['|'] + []);
      FieldReadBack(f, '|', []);
      assert NamesAndValues(fields) == [(f.name, f.text)];
    } else {
      var rest := FieldTexts(fields[1..], false) + "|";
      FieldTextsFirst(fields, false);
      assert FieldTexts(fields, false) + "|" == FieldText(f, false) + ([','] + rest);
      FieldReadBack(f, ',', rest);
      PrintedFieldsReadBack(fields[1..]);
      assert NamesAndValues(fields) == [(f.name, f.text)] + NamesAndValues(fields[1..]);
    }
  }
}
