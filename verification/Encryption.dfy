/** The encryption manifest reader of src/opf.rs: a stack of open records over the events of a tree. */
module Encryption {
  import opened Xml

  datatype Encrypted = Encrypted(algorithm: string, uri: string)

  const Undeclared := Encrypted("", "")

  /** A record whose end tag is still to come, with the depth at which it began. */
  datatype Open = Open(depth: nat, record: Encrypted)

  datatype State = State(depth: nat, open: seq<Open>, found: seq<Encrypted>)

  const Initial := State(0, [], [])

  // ----- The reader -----

  predicate IsRecord(name: string) {
    name == "EncryptedData" || name == "EncryptedKey"
  }

  /** What a start tag says about the record it stands in. */
  function Described(record: Encrypted, name: string, attrs: seq<Attr>): Encrypted {
    if name == "EncryptionMethod" && record.algorithm == "" then record.(algorithm := Attribute(attrs, "Algorithm"))
    else if name == "CipherReference" && record.uri == "" then record.(uri := Attribute(attrs, "URI"))
    else record
  }

  /** The innermost open record changed, if any is open. */
  function WithTop(open: seq<Open>, record: Encrypted): seq<Open> {
    if open == [] then [] else open[|open| - 1 := Open(open[|open| - 1].depth, record)]
  }

  function TopRecord(open: seq<Open>): Encrypted {
    if open == [] then Undeclared else open[|open| - 1].record
  }

  function Step(s: State, event: Event): State {
    match event
    case Start(name, attrs) =>
      var down := s.(depth := s.depth + 1);
      if IsRecord(name) then down.(open := s.open + [Open(s.depth + 1, Undeclared)])
      else down.(open := WithTop(s.open, Described(TopRecord(s.open), name, attrs)))
    case Empty(name, attrs) =>
      if IsRecord(name) then s.(found := s.found + [Undeclared])
      else s.(open := WithTop(s.open, Described(TopRecord(s.open), name, attrs)))
    case End(_) =>
      var closed :=
        if s.open != [] && s.open[|s.open| - 1].depth == s.depth
        then s.(open := s.open[..|s.open| - 1], found := s.found + [TopRecord(s.open)]) else s;
      closed.(depth := if s.depth == 0 then 0 else s.depth - 1)
    case _ => s
  }

  function Run(s: State, events: seq<Event>): State {
    if events == [] then s else Step(Run(s, events[..|events| - 1]), events[|events| - 1])
  }

  lemma RunNext(events: seq<Event>, i: nat)
    requires i < |events|
    ensures Run(Initial, events[..i + 1]) == Step(Run(Initial, events[..i]), events[i])
  {
    assert events[..i + 1][..i] == events[..i];
  }

  /** Everything that an encryption manifest declares encrypted. */
  method ParseEncryption(events: seq<Event>) returns (found: seq<Encrypted>)
    ensures found == Run(Initial, events).found
  {
    var depth: nat, open: seq<Open> := 0, [];
    found := [];
    for i := 0 to |events|
      invariant State(depth, open, found) == Run(Initial, events[..i])
    {
      RunNext(events, i);
      match events[i] {
        case Start(name, attrs) =>
          depth := depth + 1;
          if IsRecord(name) {
            open := open + [Open(depth, Undeclared)];
          } else if open != [] {
            var top := open[|open| - 1];
            open := open[|open| - 1 := top.(record := Described(top.record, name, attrs))];
          }
        case Empty(name, attrs) =>
          if IsRecord(name) {
            found := found + [Undeclared];
          } else if open != [] {
            var top := open[|open| - 1];
            open := open[|open| - 1 := top.(record := Described(top.record, name, attrs))];
          }
        case End(_) =>
          if open != [] && open[|open| - 1].depth == depth {
            found := found + [open[|open| - 1].record];
            open := open[..|open| - 1];
          }
          depth := if depth == 0 then 0 else depth - 1;
        case _ =>
      }
    }
    assert events[..|events|] == events;
  }

  // ----- The tree -----

  datatype Node =
    | Element(name: string, attrs: seq<Attr>, children: seq<Node>)
    | Void(name: string, attrs: seq<Attr>)
    | Chars(text: string)
    | Misc

  function Events(nodes: seq<Node>): seq<Event> {
    if nodes == [] then [] else EventsOf(nodes[0]) + Events(nodes[1..])
  }

  function EventsOf(node: Node): seq<Event> {
    match node
    case Element(name, attrs, children) => [Start(name, attrs)] + Events(children) + [End(name)]
    case Void(name, attrs) => [Empty(name, attrs)]
    case Chars(text) => [Event.Text(text)]
    case Misc => [Other]
  }

  /** The names of the elements that are records. */
  const RECORDS := ["EncryptedData", "EncryptedKey"]

  /** The values of one attribute of all elements of one name, in document order, outside any record. */
  function Values(nodes: seq<Node>, element: string, attribute: string): seq<string> {
    if nodes == [] then [] else ValuesOf(nodes[0], element, attribute) + Values(nodes[1..], element, attribute)
  }

  function ValuesOf(node: Node, element: string, attribute: string): seq<string> {
    match node
    case Element(name, attrs, children) =>
      if name in RECORDS then [] else Own(name, attrs, element, attribute) + Values(children, element, attribute)
    case Void(name, attrs) => if name in RECORDS then [] else Own(name, attrs, element, attribute)
    case _ => []
  }

  function Own(name: string, attrs: seq<Attr>, element: string, attribute: string): seq<string> {
    if name == element then [Attribute(attrs, attribute)] else []
  }

  function FirstNonEmpty(values: seq<string>): string {
    if values == [] then "" else if values[0] != "" then values[0] else FirstNonEmpty(values[1..])
  }

  function Algorithms(nodes: seq<Node>): seq<string> {
    Values(nodes, "EncryptionMethod", "Algorithm")
  }

  function References(nodes: seq<Node>): seq<string> {
    Values(nodes, "CipherReference", "URI")
  }

  /** The record of an element, from what is under it but outside any record nested in it. */
  function RecordOf(children: seq<Node>): Encrypted {
    Encrypted(FirstNonEmpty(Algorithms(children)), FirstNonEmpty(References(children)))
  }

  /** All records of a forest, each after the records nested in it. */
  function Records(nodes: seq<Node>): seq<Encrypted> {
    if nodes == [] then [] else RecordsOf(nodes[0]) + Records(nodes[1..])
  }

  function RecordsOf(node: Node): seq<Encrypted> {
    match node
    case Element(name, _, children) => Records(children) + (if name in RECORDS then [RecordOf(children)] else [])
    case Void(name, _) => if name in RECORDS then [Undeclared] else []
    case _ => []
  }

  // ----- Running over a tree -----

  lemma {:induction false} RunPlus(s: State, a: seq<Event>, b: seq<Event>)
    ensures Run(s, a + b) == Run(Run(s, a), b)
    decreases |b|
  {
    if b == [] {
      assert a + b == a;
    } else {
      assert (a + b)[..|a + b| - 1] == a + b[..|b| - 1];
      RunPlus(s, a, b[..|b| - 1]);
    }
  }

  lemma RunOne(s: State, event: Event)
    ensures Run(s, [event]) == Step(s, event)
  {
    assert [event][..0] == [];
    assert Run(s, []) == s;
  }

  lemma {:induction false} FirstOfTwo(a: seq<string>, b: seq<string>)
    ensures FirstNonEmpty(a + b) == if FirstNonEmpty(a) != "" then FirstNonEmpty(a) else FirstNonEmpty(b)
  {
    if a == [] {
      assert a + b == b;
    } else {
      assert (a + b)[1..] == a[1..] + b;
      FirstOfTwo(a[1..], b);
    }
  }

  /** What is already known stays; what is not is taken from the values that follow. */
  function Filled(record: Encrypted, algorithms: seq<string>, references: seq<string>): Encrypted {
    Encrypted(if record.algorithm != "" then record.algorithm else FirstNonEmpty(algorithms),
              if record.uri != "" then record.uri else FirstNonEmpty(references))
  }

  lemma FilledTwice(record: Encrypted, a: seq<string>, r: seq<string>, a': seq<string>, r': seq<string>)
    ensures Filled(Filled(record, a, r), a', r') == Filled(record, a + a', r + r')
  {
    FirstOfTwo(a, a');
    FirstOfTwo(r, r');
  }

  /** The state after a forest: its records are found, and the innermost open record is filled. */
  function After(s: State, algorithms: seq<string>, references: seq<string>, records: seq<Encrypted>): State {
    s.(open := WithTop(s.open, Filled(TopRecord(s.open), algorithms, references)), found := s.found + records)
  }

  lemma AfterTwice(s: State, a: seq<string>, r: seq<string>, f: seq<Encrypted>, a': seq<string>, r': seq<string>, f': seq<Encrypted>)
    ensures After(After(s, a, r, f), a', r', f') == After(s, a + a', r + r', f + f')
  {
    FilledTwice(TopRecord(s.open), a, r, a', r');
    assert s.found + f + f' == s.found + (f + f');
  }

  lemma AfterNothing(s: State)
    ensures After(s, [], [], []) == s
  {
    assert s.found + [] == s.found;
  }

  function AfterNode(s: State, node: Node): State {
    After(s, ValuesOf(node, "EncryptionMethod", "Algorithm"), ValuesOf(node, "CipherReference", "URI"), RecordsOf(node))
  }

  function AfterAll(s: State, nodes: seq<Node>): State {
    After(s, Algorithms(nodes), References(nodes), Records(nodes))
  }

  /** The innermost open record was opened at this level or above. */
  predicate Above(s: State) {
    s.open == [] || s.open[|s.open| - 1].depth <= s.depth
  }

  /** A start tag says of its record what its own attributes are worth. */
  lemma DescribedIsFilled(record: Encrypted, name: string, attrs: seq<Attr>)
    ensures Described(record, name, attrs)
            == Filled(record, Own(name, attrs, "EncryptionMethod", "Algorithm"), Own(name, attrs, "CipherReference", "URI"))
  {
    FirstOfOne(Attribute(attrs, "Algorithm"));
    FirstOfOne(Attribute(attrs, "URI"));
  }

  lemma FirstOfOne(value: string)
    ensures FirstNonEmpty([value]) == value
  {
    assert [value][1..] == [];
  }

  lemma LeafRun(s: State, node: Node)
    requires !node.Element?
    ensures Run(s, EventsOf(node)) == AfterNode(s, node)
  {
    RunOne(s, EventsOf(node)[0]);
    AfterNothing(s);
    if node.Void? {
      DescribedIsFilled(TopRecord(s.open), node.name, node.attrs);
      assert s.found + [] == s.found;
      assert WithTop(s.open, TopRecord(s.open)) == s.open;
    }
  }

  lemma CloseRecord(s: State, node: Node)
    requires node.Element? && IsRecord(node.name)
    ensures Step(AfterAll(Step(s, Start(node.name, node.attrs)), node.children), End(node.name)) == AfterNode(s, node)
  {
    var children := node.children;
    var down := Step(s, Start(node.name, node.attrs));
    var inner := AfterAll(down, children);
    assert inner.open == s.open + [Open(s.depth + 1, RecordOf(children))];
    assert inner.open[..|s.open|] == s.open;
    assert inner.found + [RecordOf(children)] == s.found + (Records(children) + [RecordOf(children)]);
    assert WithTop(s.open, TopRecord(s.open)) == s.open;
  }

  lemma CloseOther(s: State, node: Node)
    requires node.Element? && !IsRecord(node.name) && Above(s)
    ensures Step(AfterAll(Step(s, Start(node.name, node.attrs)), node.children), End(node.name)) == AfterNode(s, node)
  {
    var name, attrs, children := node.name, node.attrs, node.children;
    var down := s.(depth := s.depth + 1);
    var a, r := Own(name, attrs, "EncryptionMethod", "Algorithm"), Own(name, attrs, "CipherReference", "URI");
    DescribedIsFilled(TopRecord(s.open), name, attrs);
    assert down.found + [] == down.found;
    assert Step(s, Start(name, attrs)) == After(down, a, r, []);
    AfterTwice(down, a, r, [], Algorithms(children), References(children), Records(children));
    assert [] + Records(children) == Records(children) + [];
  }

  /** An element, given what its children do. */
  lemma ElementRun(s: State, node: Node)
    requires node.Element? && Above(s)
    requires var down := Step(s, Start(node.name, node.attrs)); Run(down, Events(node.children)) == AfterAll(down, node.children)
    ensures Run(s, EventsOf(node)) == AfterNode(s, node)
  {
    var start, inner, end := [Start(node.name, node.attrs)], Events(node.children), [End(node.name)];
    var down := Step(s, start[0]);
    RunOne(s, start[0]);
    RunPlus(s, start, inner);
    RunPlus(s, start + inner, end);
    RunOne(AfterAll(down, node.children), end[0]);
    if IsRecord(node.name) {
      CloseRecord(s, node);
    } else {
      CloseOther(s, node);
    }
  }

  lemma {:induction false} ForestRun(s: State, nodes: seq<Node>)
    requires Above(s)
    ensures Run(s, Events(nodes)) == AfterAll(s, nodes)
    decreases nodes
  {
    if nodes == [] {
      AfterNothing(s);
    } else {
      var node, rest := nodes[0], nodes[1..];
      if node.Element? {
        ForestRun(Step(s, Start(node.name, node.attrs)), node.children);
        ElementRun(s, node);
      } else {
        LeafRun(s, node);
      }
      RunPlus(s, EventsOf(node), Events(rest));
      ForestRun(AfterNode(s, node), rest);
      AfterTwice(s, ValuesOf(node, "EncryptionMethod", "Algorithm"), ValuesOf(node, "CipherReference", "URI"), RecordsOf(node),
                 Algorithms(rest), References(rest), Records(rest));
    }
  }

  /**
   * On the events of any tree, the reader finds exactly its records, each after those
   * nested in it, and each with the first algorithm and the first reference that is
   * not empty among what is under it but outside any nested record.
   */
  lemma ReaderFindsTheRecords(nodes: seq<Node>)
    ensures Run(Initial, Events(nodes)).found == Records(nodes)
  {
    ForestRun(Initial, nodes);
    assert [] + Records(nodes) == Records(nodes);
  }

  /** How many elements of a forest open a record, nested or not. */
  function RecordCount(nodes: seq<Node>): nat {
    if nodes == [] then 0
    else
      (match nodes[0]
       case Element(name, _, children) => RecordCount(children) + (if name in RECORDS then 1 else 0)
       case Void(name, _) => if name in RECORDS then 1 else 0
       case _ => 0)
      + RecordCount(nodes[1..])
  }

  /** No record is lost and none is made up, however they are nested. */
  lemma {:induction false} NoRecordIsLost(nodes: seq<Node>)
    ensures |Records(nodes)| == RecordCount(nodes)
    ensures |Run(Initial, Events(nodes)).found| == RecordCount(nodes)
    decreases nodes
  {
    ReaderFindsTheRecords(nodes);
    if nodes != [] {
      if nodes[0].Element? {
        NoRecordIsLost(nodes[0].children);
      }
      NoRecordIsLost(nodes[1..]);
    }
  }
}
