/** `XmlFormatter`: the early returns of `process` and the element tree
    `arrayToXml` builds. Writing the tree out (`asXML`) and the escaping of
    text (`htmlspecialchars`) are library code: the tree is the result, and
    the escaping is a parameter. */
module XmlFormatterModel {
  import opened Text
  import opened PhpValue
  import Normalization
  import Serialize

  /** A node of the tree: its name, the text it was created with (none for a
      node that holds children) and its children in creation order. */
  datatype Element = Element(name: string, text: Option<string>, children: seq<Element>)

  /** What `process` returns: a string, a boolean, a document, or a thrown
      error. */
  datatype XmlOutput = Text(s: string) | Boolean(b: bool) | Document(root: Element) | Failure

  /** The formatter's settings. */
  datatype XmlSettings = XmlSettings(rootElement: string, listElement: string, listElementSuffix: bool)

  const DefaultXmlSettings := XmlSettings("root", "item", false)

  /** `htmlspecialchars`. */
  type Escaper = string -> string

  predicate AllDigits(s: string)
  {
    forall i :: 0 <= i < |s| ==> IsDigit(s[i])
  }

  /** Digits with at most one decimal point and at least one digit. */
  predicate DecimalText(t: string)
  {
    (t != [] && AllDigits(t))
    || (|t| > 1 && exists i :: 0 <= i < |t| && t[i] == '.' && AllDigits(t[..i]) && AllDigits(t[i + 1..]))
  }

  /** `is_numeric` on a key: an integer key always; a string key when it
      reads as an optionally signed decimal number. */
  predicate IsNumericKey(k: Key)
  {
    match k
    case IntKey(_) => true
    case StrKey(s) => if s != [] && (s[0] == '+' || s[0] == '-') then DecimalText(s[1..]) else DecimalText(s)
  }

  /** A character that may start an XML element name: an ASCII letter, `_`
      or `:`, or any character beyond ASCII. */
  predicate NameStart(ch: char)
  {
    IsLetter(ch) || ch == '_' || ch == ':' || ch as int >= 128
  }

  /** A character that may go on an XML element name. */
  predicate NameChar(ch: char)
  {
    NameStart(ch) || IsDigit(ch) || ch == '-' || ch == '.'
  }

  /** A root element setting the document `<?xml version="1.0"?><r></r>`
      parses with: an XML name. */
  predicate IsXmlName(s: string)
  {
    s != [] && NameStart(s[0]) && forall i :: 1 <= i < |s| ==> NameChar(s[i])
  }

  /** The name of the node an array value is written under: its key, or for
      a numeric key the list element name, followed by the key when the
      suffix option is on. */
  function ListChildName(f: XmlSettings, key: Key): (r: string)
    ensures !IsNumericKey(key) ==> r == KeyText(key)
    ensures IsNumericKey(key) && !f.listElementSuffix ==> r == f.listElement
    ensures IsNumericKey(key) && f.listElementSuffix ==> r == f.listElement + KeyText(key)
  {
    if !IsNumericKey(key) then KeyText(key)
    else f.listElement + (if f.listElementSuffix then KeyText(key) else "")
  }

  /** The node written for one entry: an array becomes a node holding its
      own entries; a scalar a node named by its key whose text is the
      escaped string form of the value; anything else cannot be made a
      string and throws. `addChild` also throws on an empty name. */
  function ChildOf(f: XmlSettings, esc: Escaper, key: Key, x: Value): Option<Element>
    decreases x, 2
  {
    if x.Arr? then
      if ListChildName(f, key) == "" then None else Node(f, esc, ListChildName(f, key), x)
    else if x.IsScalar() then
      if KeyText(key) == "" then None else Some(Element(KeyText(key), Some(esc(ScalarText(x))), []))
    else None
  }

  /** A node named `name` holding the entries of the array `v`. */
  function Node(f: XmlSettings, esc: Escaper, name: string, v: Value): Option<Element>
    requires v.Arr?
    decreases v, 1
  {
    match Children(f, esc, v, |v.entries|)
    case None => None
    case Some(cs) => Some(Element(name, None, cs))
  }

  /** The nodes written for the first `n` entries of the array `v`. */
  function Children(f: XmlSettings, esc: Escaper, v: Value, n: nat): Option<seq<Element>>
    requires v.Arr?
    requires n <= |v.entries|
    decreases v, 0, n
  {
    if n == 0 then Some([])
    else match Children(f, esc, v, n - 1)
      case None => None
      case Some(cs) =>
        match ChildOf(f, esc, v.entries[n - 1].0, v.entries[n - 1].1)
        case None => None
        case Some(c) => Some(cs + [c])
  }

  /** What a one-element array with a numeric first key gives back: its value,
      or the empty string for null, made to fit the `string|bool` return
      type. */
  function EarlyValue(x: Value): XmlOutput
  {
    match x
    case Null => Text("")
    case Bool(b) => Boolean(b)
    case Int(i) => Text(IntToDec(i))
    case Str(s) => Text(s)
    case _ => Failure
  }

  /** The document with the root element holding the entries of `v`; a root
      element setting that is not an XML name makes the document fail to
      parse. */
  function Tree(f: XmlSettings, esc: Escaper, v: Value): XmlOutput
    requires v.Arr?
  {
    if !IsXmlName(f.rootElement) then Failure
    else match Node(f, esc, f.rootElement, v)
      case None => Failure
      case Some(root) => Document(root)
  }

  /** What `process` returns. The early returns apply to an array only; an
      object is turned into an array by `Serialize` and goes straight to the
      tree. */
  function ProcessOutput(f: XmlSettings, esc: Escaper, v: Value): XmlOutput
    requires v.IsContainer()
  {
    if v.Arr? then
      if v.entries != [] && IsNumericKey(v.entries[0].0) && |v.entries| == 1 then EarlyValue(v.entries[0].1)
      else if v.entries == [] then Text("")
      else Tree(f, esc, v)
    else
      match Serialize.AsArray(Normalization.Normalize(Normalization.DefaultConfig, v, true, None))
      case Array(es) => Tree(f, esc, Arr(es))
      case TypeError => Failure
  }

  class XmlFormatter {
    var rootElement: string
    var listElement: string
    var listElementSuffix: bool

    function Settings(): XmlSettings
      reads this
    {
      XmlSettings(rootElement, listElement, listElementSuffix)
    }

    constructor ()
      ensures Settings() == DefaultXmlSettings
    {
      rootElement := "root";
      listElement := "item";
      listElementSuffix := false;
    }

    method WithRootElement(rootElement: string) returns (self: XmlFormatter)
      modifies this`rootElement
      ensures self == this
      ensures Settings() == old(Settings()).(rootElement := rootElement)
    {
      this.rootElement := rootElement;
      self := this;
    }

    method WithListElement(listElement: string) returns (self: XmlFormatter)
      modifies this`listElement
      ensures self == this
      ensures Settings() == old(Settings()).(listElement := listElement)
    {
      this.listElement := listElement;
      self := this;
    }

    /** Switches the suffix on; there is no way back. */
    method WithListElementSuffix() returns (self: XmlFormatter)
      modifies this`listElementSuffix
      ensures self == this
      ensures Settings() == old(Settings()).(listElementSuffix := true)
    {
      this.listElementSuffix := true;
      self := this;
    }

    /** `process`. */
    method Process(esc: Escaper, serializable: Value) returns (r: XmlOutput)
      requires serializable.IsContainer()
      ensures r == ProcessOutput(Settings(), esc, serializable)
    {
      var es: seq<(Key, Value)>;
      if serializable.Arr? {
        es := serializable.entries;
        if |es| > 0 && IsNumericKey(es[0].0) && |es| == 1 {
          return EarlyValue(es[0].1);
        } else if |es| == 0 {
          return Text("");
        }
      } else {
        var serializer := new Serialize.Serializer.From(serializable);
        var asArray := serializer.ToArray();
        if asArray.TypeError? {
          return Failure;
        }
        es := asArray.entries;
      }
      if !IsXmlName(rootElement) {
        return Failure;
      }
      var root := ArrayToXml(esc, rootElement, Arr(es));
      r := if root.None? then Failure else Document(root.value);
    }

    /** `arrayToXml`: a node named `name` receives one child per entry, in
        order. */
    method ArrayToXml(esc: Escaper, name: string, v: Value) returns (r: Option<Element>)
      requires v.Arr?
      ensures r == Node(Settings(), esc, name, v)
      decreases v, 1
    {
      var children: seq<Element> := [];
      var i := 0;
      while i < |v.entries|
        invariant 0 <= i <= |v.entries|
        invariant Children(Settings(), esc, v, i) == Some(children)
      {
        var child := AddChild(esc, v.entries[i].0, v.entries[i].1);
        if child.None? {
          ChildrenStayFailed(Settings(), esc, v, i + 1, |v.entries|);
          return None;
        }
        children := children + [child.value];
        i := i + 1;
      }
      r := Some(Element(name, None, children));
    }

    /** One pass of the loop in `arrayToXml`: an array value becomes a node
        named by its key or the list element name and filled in turn, a
        scalar a node holding its escaped string form; `addChild` fails on
        an empty name, and any other value cannot be made a string. */
    method AddChild(esc: Escaper, key: Key, value: Value) returns (child: Option<Element>)
      ensures child == ChildOf(Settings(), esc, key, value)
      decreases value, 2
    {
      if value.Arr? {
        var childName := if !IsNumericKey(key) then KeyText(key)
                         else listElement + (if listElementSuffix then KeyText(key) else "");
        if childName == "" {
          return None;
        }
        child := ArrayToXml(esc, childName, value);
      } else if value.IsScalar() {
        if KeyText(key) == "" {
          return None;
        }
        child := Some(Element(KeyText(key), Some(esc(ScalarText(value))), []));
      } else {
        child := None;
      }
    }
  }

  /** Once an entry fails, so does everything after it. */
  lemma {:induction false} ChildrenStayFailed(f: XmlSettings, esc: Escaper, v: Value, m: nat, n: nat)
    requires v.Arr?
    requires m <= n <= |v.entries|
    requires Children(f, esc, v, m).None?
    ensures Children(f, esc, v, n).None?
    decreases n - m
  {
    if m < n {
      ChildrenStayFailed(f, esc, v, m, n - 1);
    }
  }

  /** The `i`-th entry of `v` can be written. */
  predicate Writable(f: XmlSettings, esc: Escaper, v: Value, i: nat)
    requires v.Arr? && i < |v.entries|
  {
    ChildOf(f, esc, v.entries[i].0, v.entries[i].1).Some?
  }

  /** The children exist exactly when every entry can be written. */
  lemma {:induction false} ChildrenExist(f: XmlSettings, esc: Escaper, v: Value, n: nat)
    requires v.Arr?
    requires n <= |v.entries|
    ensures Children(f, esc, v, n).Some? <==> forall i :: 0 <= i < n ==> Writable(f, esc, v, i)
  {
    if n > 0 {
      var m := n - 1;
      ChildrenExist(f, esc, v, m);
      ChildrenStep(f, esc, v, m);
      if Children(f, esc, v, m).None? {
        var j :| 0 <= j < m && !Writable(f, esc, v, j);
        assert !(forall i :: 0 <= i < m + 1 ==> Writable(f, esc, v, i));
      } else {
        assert (forall i :: 0 <= i < m + 1 ==> Writable(f, esc, v, i))
           <==> (forall i :: 0 <= i < m ==> Writable(f, esc, v, i)) && Writable(f, esc, v, m);
      }
    }
  }

  /** One more entry: the children go on existing exactly when they existed
      before and the new entry can be written. */
  lemma ChildrenStep(f: XmlSettings, esc: Escaper, v: Value, m: nat)
    requires v.Arr?
    requires m < |v.entries|
    ensures Children(f, esc, v, m + 1).Some? <==> Children(f, esc, v, m).Some? && Writable(f, esc, v, m)
  {
  }

  /** One child per entry, in entry order: the `i`-th child is the node of
      the `i`-th entry. */
  lemma {:induction false} ChildrenInOrder(f: XmlSettings, esc: Escaper, v: Value, n: nat, cs: seq<Element>)
    requires v.Arr?
    requires n <= |v.entries|
    requires Children(f, esc, v, n) == Some(cs)
    ensures |cs| == n
    ensures forall i :: 0 <= i < n ==> ChildOf(f, esc, v.entries[i].0, v.entries[i].1) == Some(cs[i])
  {
    if n > 0 {
      var prev := Children(f, esc, v, n - 1).value;
      var c := ChildOf(f, esc, v.entries[n - 1].0, v.entries[n - 1].1).value;
      assert cs == prev + [c];
      ChildrenInOrder(f, esc, v, n - 1, prev);
    }
  }

  /** How each child is named and filled: an array under a name chosen by
      `ListChildName` with no text, a scalar under its own key with the
      escaped string form of its value and no children. */
  lemma ChildShape(f: XmlSettings, esc: Escaper, key: Key, x: Value, e: Element)
    requires ChildOf(f, esc, key, x) == Some(e)
    ensures x.Arr? || x.IsScalar()
    ensures x.Arr? ==> e.name == ListChildName(f, key) && e.text.None? && |e.children| == |x.entries|
    ensures x.IsScalar() ==> e == Element(KeyText(key), Some(esc(ScalarText(x))), [])
  {
    if x.Arr? {
      ChildrenInOrder(f, esc, x, |x.entries|, Children(f, esc, x, |x.entries|).value);
    }
  }

  /** A document's root is named by the root element setting and holds one
      child per entry of the written array. */
  lemma RootShape(f: XmlSettings, esc: Escaper, v: Value)
    requires v.IsContainer()
    requires ProcessOutput(f, esc, v).Document?
    ensures ProcessOutput(f, esc, v).root.name == f.rootElement
    ensures ProcessOutput(f, esc, v).root.text.None?
  {
  }

  /** An array is written whole when the root element setting is an XML
      name, it has more than one entry or its first key is not numeric, and
      every entry can be written. */
  lemma ArrayBecomesDocument(f: XmlSettings, esc: Escaper, v: Value)
    requires IsXmlName(f.rootElement)
    requires v.Arr? && v.entries != []
    requires |v.entries| > 1 || !IsNumericKey(v.entries[0].0)
    requires forall i :: 0 <= i < |v.entries| ==> Writable(f, esc, v, i)
    ensures ProcessOutput(f, esc, v).Document?
    ensures |ProcessOutput(f, esc, v).root.children| == |v.entries|
  {
    ChildrenExist(f, esc, v, |v.entries|);
    ChildrenInOrder(f, esc, v, |v.entries|, Children(f, esc, v, |v.entries|).value);
  }

  /** A one-element array under a numeric key gives back its value without
      building any XML; null becomes the empty string. */
  lemma SingleNumericEntry(f: XmlSettings, esc: Escaper, key: Key, x: Value)
    requires IsNumericKey(key)
    ensures ProcessOutput(f, esc, Arr([(key, x)])) == EarlyValue(x)
    ensures x.Null? ==> ProcessOutput(f, esc, Arr([(key, x)])) == Text("")
    ensures x.Str? ==> ProcessOutput(f, esc, Arr([(key, x)])) == Text(x.s)
  {
  }

  /** The same array under a string key that is not numeric is written as a
      document. */
  lemma SingleNamedEntry(f: XmlSettings, esc: Escaper, name: string, x: Value)
    requires IsXmlName(f.rootElement) && name != ""
    requires x.IsScalar()
    requires !IsNumericKey(StrKey(name))
    ensures ProcessOutput(f, esc, Arr([(StrKey(name), x)]))
      == Document(Element(f.rootElement, None, [Element(name, Some(esc(ScalarText(x))), [])]))
  {
    var v := Arr([(StrKey(name), x)]);
    assert Children(f, esc, v, 0) == Some([]);
    assert Children(f, esc, v, 1) == Some([] + [Element(name, Some(esc(ScalarText(x))), [])]);
  }

  /** A root element setting that is not an XML name fails every array
      that reaches the tree. */
  lemma BadRootFails(f: XmlSettings, esc: Escaper, v: Value)
    requires !IsXmlName(f.rootElement)
    requires v.Arr? && v.entries != []
    requires |v.entries| > 1 || !IsNumericKey(v.entries[0].0)
    ensures ProcessOutput(f, esc, v) == Failure
  {
  }

  /** `addChild` rejects an empty name: an entry under the key `""`, or an
      array under a numeric key with an empty list element and no suffix. */
  lemma EmptyNameFails(f: XmlSettings, esc: Escaper, key: Key, x: Value)
    requires (x.IsScalar() && key == StrKey("")) || (x.Arr? && IsNumericKey(key) && f.listElement == "" && !f.listElementSuffix)
    ensures ChildOf(f, esc, key, x).None?
  {
  }

  /** The default root element is an XML name; `my root` is not. */
  lemma RootNameExamples()
    ensures IsXmlName(DefaultXmlSettings.rootElement)
    ensures !IsXmlName("my root")
  {
    assert "my root"[2] == ' ';
  }

  /** `1`, `-2.5` and `+.5` are numeric keys. */
  lemma NumericKeyExamples()
    ensures IsNumericKey(StrKey("1"))
    ensures IsNumericKey(StrKey("-2.5"))
    ensures IsNumericKey(StrKey("+.5"))
  {
    assert "-2.5"[1..] == "2.5";
    assert "2.5"[..1] == "2" && "2.5"[2..] == "5";
    assert "+.5"[1..] == ".5";
    assert ".5"[..0] == "" && ".5"[1..] == "5";
  }

  /** `a1` and `1.2.3` are not numeric keys. */
  lemma NonNumericKeyExamples()
    ensures !IsNumericKey(StrKey("a1"))
    ensures !IsNumericKey(StrKey("1.2.3"))
  {
    assert !IsDigit('a');
    var t := "1.2.3";
    assert !AllDigits(t) by { assert !IsDigit(t[1]); }
    forall i | 0 <= i < |t| && t[i] == '.'
      ensures !(AllDigits(t[..i]) && AllDigits(t[i + 1..]))
    {
      if i == 1 {
        assert t[i + 1..][1] == '.';
      } else {
        assert t[..i][1] == '.';
      }
    }
  }
}
