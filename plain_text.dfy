/** `PlainTextFormatter`: an array written out entry by entry, each entry
    between the start-of-line and the line-break strings, nested arrays
    written the same way in place. */
module PlainTextFormatterModel {
  import opened Text
  import opened PhpValue
  import Normalization
  import Serialize

  /** The formatter's settings. */
  datatype Layout = Layout(breakLine: string, startOfLine: string, ignorePropertyName: bool)

  const DefaultLayout := Layout("\n", "", true)

  /** One entry's text between its start-of-line and its line break: a nested
      array rendered in place, or a scalar, prefixed by `key=` when property
      names are shown. An object inside the array cannot be made a string:
      PHP throws, and the result is `None`. */
  function EntryText(f: Layout, key: Key, x: Value): Option<string>
    decreases x, 2
  {
    if x.Arr? then Render(f, x, |x.entries|)
    else if x.IsScalar() then Some((if f.ignorePropertyName then "" else KeyText(key) + "=") + ScalarText(x))
    else None
  }

  /** `processInternal` after the first `n` entries of the array `v`. */
  function Render(f: Layout, v: Value, n: nat): Option<string>
    requires v.Arr?
    requires n <= |v.entries|
    decreases v, 0, n
  {
    if n == 0 then Some("")
    else match Render(f, v, n - 1)
      case None => None
      case Some(acc) =>
        match EntryText(f, v.entries[n - 1].0, v.entries[n - 1].1)
        case None => None
        case Some(t) => Some(acc + f.startOfLine + t + f.breakLine)
  }

  /** One entry's line: its text wrapped once. */
  function Line(f: Layout, e: (Key, Value)): Option<string>
  {
    match EntryText(f, e.0, e.1)
    case None => None
    case Some(t) => Some(f.startOfLine + t + f.breakLine)
  }

  /** An independent reading of the output: the lines of the entries, first
      to last, joined; one failing entry fails the whole. */
  function Lines(f: Layout, es: seq<(Key, Value)>): Option<string>
  {
    if es == [] then Some("")
    else match Line(f, es[0])
      case None => None
      case Some(l) =>
        match Lines(f, es[1..])
        case None => None
        case Some(rest) => Some(l + rest)
  }

  lemma {:induction false} LinesSnoc(f: Layout, es: seq<(Key, Value)>, e: (Key, Value))
    ensures Lines(f, es + [e]) ==
      match Lines(f, es)
      case None => None
      case Some(a) => match Line(f, e) case None => None case Some(l) => Some(a + l)
  {
    if es == [] {
      assert [e][1..] == [];
      assert es + [e] == [e];
      match Line(f, e) {
        case None =>
        case Some(l) => assert l + "" == "" + l;
      }
    } else {
      assert (es + [e])[1..] == es[1..] + [e];
      LinesSnoc(f, es[1..], e);
      match Line(f, es[0]) {
        case None =>
        case Some(l0) =>
          match Lines(f, es[1..]) {
            case None =>
            case Some(rest) =>
              match Line(f, e) {
                case None =>
                case Some(l) => assert l0 + (rest + l) == (l0 + rest) + l;
              }
          }
      }
    }
  }

  /** The output is each entry's line, in order, and nothing else. */
  lemma {:induction false} RenderIsLines(f: Layout, v: Value, n: nat)
    requires v.Arr?
    requires n <= |v.entries|
    ensures Render(f, v, n) == Lines(f, v.entries[..n])
  {
    if n > 0 {
      RenderIsLines(f, v, n - 1);
      assert v.entries[..n] == v.entries[..n - 1] + [v.entries[n - 1]];
      LinesSnoc(f, v.entries[..n - 1], v.entries[n - 1]);
      match Render(f, v, n - 1) {
        case None =>
        case Some(acc) =>
          match EntryText(f, v.entries[n - 1].0, v.entries[n - 1].1) {
            case None =>
            case Some(t) => assert acc + f.startOfLine + t + f.breakLine == acc + (f.startOfLine + t + f.breakLine);
          }
      }
    }
  }

  /** An empty array renders to the empty string. */
  lemma RenderEmpty(f: Layout, v: Value)
    requires v == Arr([])
    ensures Render(f, v, |v.entries|) == Some("")
  {
  }

  /** With the default layout each value sits on its own line and the keys
      are not shown. */
  lemma DefaultLayoutExample(v: Value)
    requires v == Arr([(StrKey("key1"), Str("value")), (StrKey("key2"), Str("value2"))])
    ensures Render(DefaultLayout, v, 2) == Some("value\nvalue2\n")
  {
    var f := DefaultLayout;
    assert Render(f, v, 0) == Some("");
    assert EntryText(f, StrKey("key1"), Str("value")) == Some("" + "value");
    assert "" + "" + ("" + "value") + "\n" == "value\n";
    assert Render(f, v, 1) == Some("value\n");
    assert EntryText(f, StrKey("key2"), Str("value2")) == Some("" + "value2");
    assert "value\n" + "" + ("" + "value2") + "\n" == "value\nvalue2\n";
  }

  /** With property names shown, a scalar's line reads `key=value`. */
  lemma ShowNamesExample(v: Value)
    requires v == Arr([(StrKey("id"), Int(10))])
    ensures Render(DefaultLayout.(ignorePropertyName := false), v, 1) == Some("id=10\n")
  {
    var f := DefaultLayout.(ignorePropertyName := false);
    assert IntToDec(10) == "10";
    assert Render(f, v, 0) == Some("");
    assert EntryText(f, StrKey("id"), Int(10)) == Some("id" + "=" + "10");
    assert "" + "" + ("id" + "=" + "10") + "\n" == "id=10\n";
  }

  class PlainTextFormatter {
    var breakLine: string
    var startOfLine: string
    var ignorePropertyName: bool

    function Settings(): Layout
      reads this
    {
      Layout(breakLine, startOfLine, ignorePropertyName)
    }

    constructor ()
      ensures Settings() == DefaultLayout
    {
      breakLine := "\n";
      startOfLine := "";
      ignorePropertyName := true;
    }

    method WithBreakLine(breakLine: string) returns (self: PlainTextFormatter)
      modifies this`breakLine
      ensures self == this
      ensures Settings() == old(Settings()).(breakLine := breakLine)
    {
      this.breakLine := breakLine;
      self := this;
    }

    method WithStartOfLine(startOfLine: string) returns (self: PlainTextFormatter)
      modifies this`startOfLine
      ensures self == this
      ensures Settings() == old(Settings()).(startOfLine := startOfLine)
    {
      this.startOfLine := startOfLine;
      self := this;
    }

    method WithIgnorePropertyName(ignorePropertyName: bool) returns (self: PlainTextFormatter)
      modifies this`ignorePropertyName
      ensures self == this
      ensures Settings() == old(Settings()).(ignorePropertyName := ignorePropertyName)
    {
      this.ignorePropertyName := ignorePropertyName;
      self := this;
    }

    /** `process`: an object is first turned into an array by `Serialize`
        with its default settings. */
    method Process(serializable: Value) returns (r: Option<string>)
      requires serializable.IsContainer()
      ensures serializable.Arr? ==> r == Render(Settings(), serializable, |serializable.entries|)
      ensures !serializable.Arr? ==>
        r == match Serialize.AsArray(Normalization.Normalize(Normalization.DefaultConfig, serializable, true, None))
             case Array(es) => Render(Settings(), Arr(es), |es|)
             case TypeError => None
    {
      if !serializable.Arr? {
        var serializer := new Serialize.Serializer.From(serializable);
        var asArray := serializer.ToArray();
        match asArray {
          case Array(es) => r := ProcessInternal(Arr(es));
          case TypeError => r := None;
        }
        return;
      }
      r := ProcessInternal(serializable);
    }

    /** `processInternal`. */
    method ProcessInternal(serializable: Value) returns (r: Option<string>)
      requires serializable.Arr?
      ensures r == Render(Settings(), serializable, |serializable.entries|)
      decreases serializable
    {
      var result := "";
      var i := 0;
      while i < |serializable.entries|
        invariant 0 <= i <= |serializable.entries|
        invariant Render(Settings(), serializable, i) == Some(result)
      {
        var (key, value) := serializable.entries[i];
        var text: string;
        if value.Arr? {
          var inner := ProcessInternal(value);
          if inner.None? {
            RenderStaysFailed(Settings(), serializable, i + 1, |serializable.entries|);
            return None;
          }
          text := inner.value;
        } else if value.IsScalar() {
          text := (if ignorePropertyName then "" else KeyText(key) + "=") + ScalarText(value);
        } else {
          RenderStaysFailed(Settings(), serializable, i + 1, |serializable.entries|);
          return None;
        }
        result := result + startOfLine + text + breakLine;
        i := i + 1;
      }
      r := Some(result);
    }
  }

  /** Once an entry fails, so does everything after it. */
  lemma {:induction false} RenderStaysFailed(f: Layout, v: Value, m: nat, n: nat)
    requires v.Arr?
    requires m <= n <= |v.entries|
    requires Render(f, v, m).None?
    ensures Render(f, v, n).None?
    decreases n - m
  {
    if m < n {
      RenderStaysFailed(f, v, m, n - 1);
    }
  }
}
