/** `CsvFormatter`: a header line made of the first row's keys, then one
    line per row. How one line is encoded (separator, quoting, the line
    end) is `fputcsv`'s business and is a parameter here. */
module CsvFormatterModel {
  import opened PhpValue
  import Normalization
  import Serialize

  /** `fputcsv` over one list of fields, read back as a string, for fields
      it can write. */
  type LineEncoder = seq<Value> -> string

  /** A field `fputcsv` can turn into text: a scalar, an array (written as
      `Array`, with a warning), or an object with a `__toString` method.
      Any other object, `stdClass` included, makes the conversion throw. */
  predicate CsvField(x: Value)
  {
    !(x.Std? || (x.Obj? && FindMethod(x.methods, "__toString").None?))
  }

  /** One line, or `None` when a field makes `fputcsv` throw. */
  function Line(enc: LineEncoder, fields: seq<Value>): (r: Option<string>)
    ensures r.Some? <==> forall i :: 0 <= i < |fields| ==> CsvField(fields[i])
    ensures r.Some? ==> r.value == enc(fields)
  {
    if forall i :: 0 <= i < |fields| ==> CsvField(fields[i]) then Some(enc(fields)) else None
  }

  /** A row that is an array whose every value can be written. */
  predicate RowWritable(row: Value)
    ensures RowWritable(row) ==> row.Arr?
  {
    row.Arr? && forall j :: 0 <= j < |row.entries| ==> CsvField(row.entries[j].1)
  }

  /** A row is writable exactly when its line exists. */
  lemma RowWritableLine(enc: LineEncoder, row: Value)
    requires row.Arr?
    ensures RowWritable(row) <==> Line(enc, ValueFields(row.entries)).Some?
  {
    var fs := ValueFields(row.entries);
    if RowWritable(row) {
      forall i | 0 <= i < |fs| ensures CsvField(fs[i]) { assert fs[i] == row.entries[i].1; }
    } else {
      var j :| 0 <= j < |row.entries| && !CsvField(row.entries[j].1);
      assert fs[j] == row.entries[j].1;
    }
  }

  /** Some value of the array is itself an array. */
  predicate IsMultidimensional(es: seq<(Key, Value)>)
  {
    exists i :: 0 <= i < |es| && es[i].1.Arr?
  }

  /** `array_keys`: integer keys stay integers, string keys strings. */
  function KeyFields(es: seq<(Key, Value)>): (r: seq<Value>)
    ensures |r| == |es|
    ensures forall i :: 0 <= i < |es| ==> r[i] == (match es[i].0 case IntKey(n) => Int(n) case StrKey(s) => Str(s))
  {
    seq(|es|, i requires 0 <= i < |es| => match es[i].0 case IntKey(n) => Int(n) case StrKey(s) => Str(s))
  }

  /** `array_values`. */
  function ValueFields(es: seq<(Key, Value)>): (r: seq<Value>)
    ensures |r| == |es|
    ensures forall i :: 0 <= i < |es| ==> r[i] == es[i].1
  {
    seq(|es|, i requires 0 <= i < |es| => es[i].1)
  }

  /** The rows: the values of an array of arrays, or a flat array wrapped as
      the only row. */
  function Rows(es: seq<(Key, Value)>): (r: seq<Value>)
    ensures IsMultidimensional(es) ==> r == ValueFields(es)
    ensures !IsMultidimensional(es) ==> r == [Arr(es)]
  {
    if IsMultidimensional(es) then ValueFields(es) else [Arr(es)]
  }

  /** The lines of the first `n` rows; a row that is not an array makes
      `array_values` throw, a field that cannot be written makes `fputcsv`
      throw, and the result is `None`. */
  function RowsText(enc: LineEncoder, rows: seq<Value>, n: nat): Option<string>
    requires n <= |rows|
  {
    if n == 0 then Some("")
    else match RowsText(enc, rows, n - 1)
      case None => None
      case Some(acc) =>
        if !rows[n - 1].Arr? then None
        else match Line(enc, ValueFields(rows[n - 1].entries))
          case None => None
          case Some(l) => Some(acc + l)
  }

  /** What `process` returns for an array: the empty string for an empty
      array; otherwise the header line, then the row lines. A first row that
      is not an array makes `array_keys` throw. Keys are integers or strings,
      so the header line can always be written. */
  function CsvText(enc: LineEncoder, es: seq<(Key, Value)>): Option<string>
  {
    if es == [] then Some("")
    else
      var rows := Rows(es);
      if !rows[0].Arr? then None
      else match RowsText(enc, rows, |rows|)
        case None => None
        case Some(body) => Some(enc(KeyFields(rows[0].entries)) + body)
  }

  /** `isMultidimensionalArray`. */
  method IsMultidimensionalArray(es: seq<(Key, Value)>) returns (r: bool)
    ensures r <==> IsMultidimensional(es)
  {
    var i := 0;
    while i < |es|
      invariant 0 <= i <= |es|
      invariant forall j :: 0 <= j < i ==> !es[j].1.Arr?
    {
      if es[i].1.Arr? {
        return true;
      }
      i := i + 1;
    }
    return false;
  }

  /** `process` for an array; objects are first turned into one by
      `Serialize` with its default settings. */
  method Process(enc: LineEncoder, serializable: Value) returns (r: Option<string>)
    requires serializable.IsContainer()
    ensures serializable.Arr? ==> r == CsvText(enc, serializable.entries)
    ensures !serializable.Arr? ==>
      r == match Serialize.AsArray(Normalization.Normalize(Normalization.DefaultConfig, serializable, true, None))
           case Array(es) => CsvText(enc, es)
           case TypeError => None
  {
    var es: seq<(Key, Value)>;
    if !serializable.Arr? {
      var serializer := new Serialize.Serializer.From(serializable);
      var asArray := serializer.ToArray();
      if asArray.TypeError? {
        return None;
      }
      es := asArray.entries;
    } else {
      es := serializable.entries;
    }
    r := ProcessArray(enc, es);
  }

  method ProcessArray(enc: LineEncoder, es: seq<(Key, Value)>) returns (r: Option<string>)
    ensures r == CsvText(enc, es)
  {
    if |es| == 0 {
      return Some("");
    }
    var isMultidimensional := IsMultidimensionalArray(es);
    var rows := if isMultidimensional then ValueFields(es) else [Arr(es)];
    if !rows[0].Arr? {
      return None;
    }
    var output := enc(KeyFields(rows[0].entries));
    ghost var header := output;
    ghost var body := "";
    var i := 0;
    while i < |rows|
      invariant 0 <= i <= |rows|
      invariant RowsText(enc, rows, i) == Some(body)
      invariant output == header + body
    {
      if !rows[i].Arr? {
        RowsStayFailed(enc, rows, i + 1, |rows|);
        return None;
      }
      var line := Line(enc, ValueFields(rows[i].entries));
      if line.None? {
        RowsStayFailed(enc, rows, i + 1, |rows|);
        return None;
      }
      body := body + line.value;
      output := output + line.value;
      i := i + 1;
    }
    r := Some(output);
  }

  lemma {:induction false} RowsStayFailed(enc: LineEncoder, rows: seq<Value>, m: nat, n: nat)
    requires m <= n <= |rows|
    requires RowsText(enc, rows, m).None?
    ensures RowsText(enc, rows, n).None?
    decreases n - m
  {
    if m < n {
      RowsStayFailed(enc, rows, m, n - 1);
    }
  }

  /** Strings joined end to end. */
  function Concat(ls: seq<string>): string
  {
    if ls == [] then "" else ls[0] + Concat(ls[1..])
  }

  lemma {:induction false} ConcatSnoc(ls: seq<string>, l: string)
    ensures Concat(ls + [l]) == Concat(ls) + l
  {
    if ls == [] {
      assert [l][1..] == [];
      assert ls + [l] == [l];
    } else {
      assert (ls + [l])[1..] == ls[1..] + [l];
      ConcatSnoc(ls[1..], l);
    }
  }

  /** When every row is an array of writable values, the body is one
      encoded line per row, in row order, each with the row's values in its
      own order. */
  lemma {:induction false} RowsAreLines(enc: LineEncoder, rows: seq<Value>, n: nat)
    requires n <= |rows|
    requires forall i :: 0 <= i < |rows| ==> rows[i].Arr? && RowWritable(rows[i])
    ensures RowsText(enc, rows, n)
      == Some(Concat(seq(n, i requires 0 <= i < n => enc(ValueFields(rows[i].entries)))))
  {
    if n > 0 {
      RowsAreLines(enc, rows, n - 1);
      RowWritableLine(enc, rows[n - 1]);
      var lines := seq(n, i requires 0 <= i < n => enc(ValueFields(rows[i].entries)));
      assert lines == lines[..n - 1] + [lines[n - 1]];
      assert lines[..n - 1] == seq(n - 1, i requires 0 <= i < n - 1 => enc(ValueFields(rows[i].entries)));
      ConcatSnoc(lines[..n - 1], lines[n - 1]);
    }
  }

  /** A flat, non-empty array is written as its keys, then its values, when
      every value can be written; otherwise `fputcsv` throws. */
  lemma FlatArrayIsOneRow(enc: LineEncoder, es: seq<(Key, Value)>)
    requires es != []
    requires !IsMultidimensional(es)
    ensures RowWritable(Arr(es)) ==> CsvText(enc, es) == Some(enc(KeyFields(es)) + enc(ValueFields(es)))
    ensures !RowWritable(Arr(es)) ==> CsvText(enc, es).None?
  {
    RowWritableLine(enc, Arr(es));
    assert RowsText(enc, [Arr(es)], 0) == Some("");
    assert "" + enc(ValueFields(es)) == enc(ValueFields(es));
  }

  /** An array of arrays is written as the first row's keys, then one line
      per row; the keys of the other rows play no part. */
  lemma ArrayOfArrays(enc: LineEncoder, es: seq<(Key, Value)>)
    requires es != []
    requires forall i :: 0 <= i < |es| ==> es[i].1.Arr? && RowWritable(es[i].1)
    ensures CsvText(enc, es)
      == Some(enc(KeyFields(es[0].1.entries)) + Concat(seq(|es|, i requires 0 <= i < |es| => enc(ValueFields(es[i].1.entries)))))
  {
    assert IsMultidimensional(es) by {
      assert es[0].1.Arr?;
    }
    var rows := ValueFields(es);
    RowsAreLines(enc, rows, |rows|);
    assert seq(|rows|, i requires 0 <= i < |rows| => enc(ValueFields(rows[i].entries)))
        == seq(|es|, i requires 0 <= i < |es| => enc(ValueFields(es[i].1.entries)));
  }

  /** An array mixing arrays and other values fails on its first non-array
      row. */
  lemma MixedRowsFail(enc: LineEncoder, es: seq<(Key, Value)>, k: nat)
    requires IsMultidimensional(es)
    requires k < |es| && !es[k].1.Arr?
    ensures CsvText(enc, es).None?
  {
    var rows := ValueFields(es);
    if rows[0].Arr? {
      assert RowsText(enc, rows, k + 1).None?;
      RowsStayFailed(enc, rows, k + 1, |rows|);
    }
  }

  /** A row holding a value that cannot be written fails the whole output. */
  lemma UnwritableRowFails(enc: LineEncoder, es: seq<(Key, Value)>, k: nat)
    requires IsMultidimensional(es)
    requires k < |es| && es[k].1.Arr? && !RowWritable(es[k].1)
    ensures CsvText(enc, es).None?
  {
    var rows := ValueFields(es);
    RowWritableLine(enc, rows[k]);
    if rows[0].Arr? {
      assert RowsText(enc, rows, k + 1).None?;
      RowsStayFailed(enc, rows, k + 1, |rows|);
    }
  }
}
