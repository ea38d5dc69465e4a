/** PHP values as the normalisers see them, and PHP's ordered arrays. */
module PhpValue {
  import opened Text

  datatype Option<+T> = None | Some(value: T)

  /** A PHP array key: an integer or a string. */
  datatype Key = IntKey(i: int) | StrKey(s: string)

  /** A property as `(array)$object` lists it: public under its own name,
      protected or private (a NUL-prefixed key in PHP) under its bare name. */
  datatype PropKey = Public(name: string) | Hidden(name: string)

  /** A method of an object and the value it returns when called with no
      arguments on that instance (what a getter call yields). */
  datatype Method = Method(name: string, result: Value)

  /** The class of an object: its name and the names of its parent classes and
      interfaces (what `is_a` consults). */
  datatype ClassInfo = ClassInfo(name: string, ancestors: seq<string>)

  /** An acyclic PHP value. `Std` is a `stdClass`, given by the entry list of
      its `(array)` cast; `Obj` is an instance of any other class, with its
      properties in declaration order and its methods. */
  datatype Value =
    | Null
    | Bool(b: bool)
    | Int(i: int)
    | Str(s: string)
    | Arr(entries: seq<(Key, Value)>)
    | Std(entries: seq<(Key, Value)>)
    | Obj(cls: ClassInfo, props: seq<(PropKey, Value)>, methods: seq<Method>)
  {
    predicate IsScalar() { Null? || Bool? || Int? || Str? }
    predicate IsContainer() { Arr? || Std? || Obj? }
  }

  /** The string PHP's `"$v"` makes of a scalar. */
  function ScalarText(v: Value): (r: string)
    requires v.IsScalar()
    ensures v.Null? ==> r == ""
    ensures v.Bool? ==> r == (if v.b then "1" else "")
    ensures v.Int? ==> r == IntToDec(v.i)
    ensures v.Str? ==> r == v.s
  {
    match v
    case Null => ""
    case Bool(b) => if b then "1" else ""
    case Int(i) => IntToDec(i)
    case Str(s) => s
  }

  /** The string PHP's `"$key"` makes of an array key. */
  function KeyText(k: Key): string
  {
    match k
    case IntKey(i) => IntToDec(i)
    case StrKey(s) => s
  }

  /** PHP 8's loose `==` between two array keys (as `in_array` uses it):
      an integer equals the string holding its decimal text. */
  predicate LooseKeyEq(a: Key, b: Key)
  {
    match (a, b)
    case (IntKey(x), IntKey(y)) => x == y
    case (StrKey(x), StrKey(y)) => x == y
    case (IntKey(x), StrKey(y)) => y == IntToDec(x)
    case (StrKey(x), IntKey(y)) => x == IntToDec(y)
  }

  /** `in_array($k, $list)` with loose comparison. */
  predicate KeyIn(k: Key, list: seq<Key>)
  {
    exists j :: 0 <= j < |list| && LooseKeyEq(k, list[j])
  }

  function Keys<V>(es: seq<(Key, V)>): (r: seq<Key>)
    ensures |r| == |es| && forall i :: 0 <= i < |es| ==> r[i] == es[i].0
  {
    seq(|es|, i requires 0 <= i < |es| => es[i].0)
  }

  predicate UniqueKeys<V>(es: seq<(Key, V)>)
  {
    forall i, j :: 0 <= i < j < |es| ==> es[i].0 != es[j].0
  }

  predicate HasKey<K(==), V>(es: seq<(K, V)>, k: K)
  {
    exists i :: 0 <= i < |es| && es[i].0 == k
  }

  /** The position of the first entry under key `k`. */
  function IndexOf<K(==), V>(es: seq<(K, V)>, k: K): (r: Option<nat>)
    ensures r.Some? ==> r.value < |es| && es[r.value].0 == k
    ensures r.Some? ==> forall j :: 0 <= j < r.value ==> es[j].0 != k
    ensures r.None? <==> !HasKey(es, k)
  {
    if es == [] then None
    else if es[0].0 == k then Some(0)
    else match IndexOf(es[1..], k)
      case None => assert forall j :: 1 <= j < |es| ==> es[j] == es[1..][j - 1]; None
      case Some(j) => Some(j + 1)
  }

  /** `$a[$k] = $v` on an ordered array: reading `k` back gives `v`, and a
      new key goes at the end; `PutShape` says what happens to the rest. */
  function Put<K(==), V(==)>(es: seq<(K, V)>, k: K, v: V): (r: seq<(K, V)>)
    ensures Get(r, k) == Some(v)
    ensures !HasKey(es, k) ==> r == es + [(k, v)]
  {
    match IndexOf(es, k)
    case Some(i) =>
      var r := es[i := (k, v)];
      GetFirst(r, k, i);
      r
    case None =>
      var r := es + [(k, v)];
      GetFirst(r, k, |es|);
      r
  }

  /** An existing key keeps its place and takes the new value; every other
      entry stays where it was. */
  lemma PutShape<V>(es: seq<(Key, V)>, k: Key, v: V)
    ensures HasKey(es, k) ==> |Put(es, k, v)| == |es|
    ensures forall i :: 0 <= i < |es| ==> Put(es, k, v)[i].0 == es[i].0
    ensures forall i :: 0 <= i < |es| && es[i].0 != k ==> Put(es, k, v)[i] == es[i]
    ensures forall i :: 0 <= i < |Put(es, k, v)| ==> Put(es, k, v)[i] == (k, v) || Put(es, k, v)[i] in es
  {
  }

  lemma {:induction false} GetFirst<K, V>(es: seq<(K, V)>, k: K, i: nat)
    requires i < |es| && es[i].0 == k
    requires forall j :: 0 <= j < i ==> es[j].0 != k
    ensures Get(es, k) == Some(es[i].1)
  {
    if i > 0 {
      GetFirst(es[1..], k, i - 1);
    }
  }

  /** `unset($a[$k])`. */
  function Remove<K(==), V(==)>(es: seq<(K, V)>, k: K): (r: seq<(K, V)>)
    ensures !HasKey(r, k)
    ensures forall i :: 0 <= i < |r| ==> r[i] in es
    ensures forall e :: e in es && e.0 != k ==> e in r
    ensures !HasKey(es, k) ==> r == es
  {
    if es == [] then []
    else if es[0].0 == k then Remove(es[1..], k)
    else [es[0]] + Remove(es[1..], k)
  }

  /** `unset` works entry by entry: the entries of `a` that stay come before
      the entries of `b` that stay, each part in its own order. */
  lemma {:induction false} RemoveAppend<K, V>(a: seq<(K, V)>, b: seq<(K, V)>, k: K)
    ensures Remove(a + b, k) == Remove(a, k) + Remove(b, k)
  {
    if a == [] {
      assert a + b == b;
    } else {
      assert (a + b)[0] == a[0];
      assert (a + b)[1..] == a[1..] + b;
      RemoveAppend(a[1..], b, k);
    }
  }

  /** One entry stays exactly when it is not under the key. */
  lemma RemoveSingle<K, V>(e: (K, V), k: K)
    ensures Remove([e], k) == if e.0 == k then [] else [e]
  {
    assert [e][1..] == [];
  }

  /** In an array with distinct keys, `unset` takes out the one entry under
      the key and keeps the rest in place. */
  lemma RemoveAt<K, V>(es: seq<(K, V)>, k: K, i: nat)
    requires forall x, y :: 0 <= x < y < |es| ==> es[x].0 != es[y].0
    requires i < |es| && es[i].0 == k
    ensures Remove(es, k) == es[..i] + es[i + 1..]
  {
    KeyOnlyAt(es, k, i);
    var rest := es[i..];
    assert es == es[..i] + rest;
    RemoveAppend(es[..i], rest, k);
    assert rest[1..] == es[i + 1..];
  }

  lemma KeyOnlyAt<K, V>(es: seq<(K, V)>, k: K, i: nat)
    requires forall x, y :: 0 <= x < y < |es| ==> es[x].0 != es[y].0
    requires i < |es| && es[i].0 == k
    ensures !HasKey(es[..i], k) && !HasKey(es[i + 1..], k)
  {
    var before, tail := es[..i], es[i + 1..];
    forall j | 0 <= j < |before| ensures before[j].0 != k { assert before[j] == es[j]; }
    forall j | 0 <= j < |tail| ensures tail[j].0 != k { assert tail[j] == es[i + 1 + j]; }
  }

  /** Looks a key up in an ordered array. */
  function Get<K(==), V(==)>(es: seq<(K, V)>, k: K): (r: Option<V>)
    ensures r.Some? <==> HasKey(es, k)
    ensures r.Some? ==> (k, r.value) in es
  {
    if es == [] then None
    else if es[0].0 == k then Some(es[0].1)
    else Get(es[1..], k)
  }

  lemma {:induction false} PutKeepsUnique<V>(es: seq<(Key, V)>, k: Key, v: V)
    requires UniqueKeys(es)
    ensures UniqueKeys(Put(es, k, v))
  {
    var r := Put(es, k, v);
    PutShape(es, k, v);
    if !HasKey(es, k) {
      assert r == es + [(k, v)];
    } else {
      forall i, j | 0 <= i < j < |r| ensures r[i].0 != r[j].0 {
        assert r[i].0 == es[i].0 && r[j].0 == es[j].0;
      }
    }
  }

  lemma RemoveKeepsUnique<V>(es: seq<(Key, V)>, k: Key)
    requires UniqueKeys(es)
    ensures UniqueKeys(Remove(es, k))
  {
    if es != [] {
      RemoveKeepsUnique(es[1..], k);
      var rest := Remove(es[1..], k);
      if es[0].0 != k {
        forall j | 0 <= j < |rest| ensures rest[j].0 != es[0].0 {
          assert rest[j] in es[1..];
        }
      }
    }
  }

  /** After an assignment the array holds exactly its old keys and the new one. */
  lemma PutKeys<V>(es: seq<(Key, V)>, k: Key, v: V, k2: Key)
    ensures HasKey(Put(es, k, v), k2) <==> HasKey(es, k2) || k2 == k
  {
    var r := Put(es, k, v);
    PutShape(es, k, v);
    if HasKey(r, k2) && k2 != k {
      var i :| 0 <= i < |r| && r[i].0 == k2;
      assert r[i] in es;
    }
    if HasKey(es, k2) {
      var i :| 0 <= i < |es| && es[i].0 == k2;
      assert r[i].0 == k2;
    }
    if k2 == k {
      assert Get(r, k).Some?;
    }
  }

  /** An assignment leaves what every other key reads back unchanged. */
  lemma PutOther<K, V>(es: seq<(K, V)>, k: K, v: V, k2: K)
    requires k2 != k
    ensures Get(Put(es, k, v), k2) == Get(es, k2)
  {
    match IndexOf(es, k)
    case None => GetAppendOther(es, (k, v), k2);
    case Some(i) => GetUpdateOther(es, i, (k, v), k2);
  }

  lemma {:induction false} GetAppendOther<K, V>(es: seq<(K, V)>, e: (K, V), k2: K)
    requires e.0 != k2
    ensures Get(es + [e], k2) == Get(es, k2)
  {
    if es != [] {
      assert (es + [e])[1..] == es[1..] + [e];
      GetAppendOther(es[1..], e, k2);
    }
  }

  lemma {:induction false} GetUpdateOther<K, V>(es: seq<(K, V)>, i: nat, e: (K, V), k2: K)
    requires i < |es| && es[i].0 != k2 && e.0 != k2
    ensures Get(es[i := e], k2) == Get(es, k2)
  {
    if i == 0 {
      assert es[i := e][1..] == es[1..];
    } else {
      assert es[i := e][1..] == es[1..][i - 1 := e];
      GetUpdateOther(es[1..], i - 1, e, k2);
    }
  }

  /** Assigning a new key and unsetting it again leaves the array as it was. */
  lemma {:induction false} RemoveAppended<K, V>(es: seq<(K, V)>, k: K, v: V)
    requires !HasKey(es, k)
    ensures Remove(es + [(k, v)], k) == es
  {
    if es == [] {
      assert [(k, v)][1..] == [];
    } else {
      assert (es + [(k, v)])[1..] == es[1..] + [(k, v)];
      RemoveAppended(es[1..], k, v);
      assert [es[0]] + es[1..] == es;
    }
  }

  // ---------------------------------------------------------------------
  // A run of assignments

  /** The array left by the assignments `ps`, made in order into an empty
      array. */
  function PutAll<K(==), V(==)>(ps: seq<(K, V)>): seq<(K, V)>
  {
    if ps == [] then [] else Put(PutAll(ps[..|ps| - 1]), ps[|ps| - 1].0, ps[|ps| - 1].1)
  }

  /** The value the last assignment under `k` gives, if any. */
  function LastValue<K(==), V>(ps: seq<(K, V)>, k: K): (r: Option<V>)
    ensures r.None? <==> !HasKey(ps, k)
    ensures r.Some? ==> exists i :: 0 <= i < |ps| && ps[i] == (k, r.value) && forall j :: i < j < |ps| ==> ps[j].0 != k
  {
    if ps == [] then None
    else
      var pre := ps[..|ps| - 1];
      assert forall i :: 0 <= i < |pre| ==> pre[i] == ps[i];
      if ps[|ps| - 1].0 == k then Some(ps[|ps| - 1].1)
      else LastValue(pre, k)
  }

  /** The keys of `ks` in the order they first occur, each once. */
  function FirstKeys(ks: seq<Key>): (r: seq<Key>)
    ensures forall i, j :: 0 <= i < j < |r| ==> r[i] != r[j]
    ensures forall x :: x in r <==> x in ks
  {
    if ks == [] then []
    else
      var d := FirstKeys(ks[..|ks| - 1]);
      assert ks == ks[..|ks| - 1] + [ks[|ks| - 1]];
      if ks[|ks| - 1] in d then d else d + [ks[|ks| - 1]]
  }

  lemma HasKeyIsKey<V>(es: seq<(Key, V)>, k: Key)
    ensures HasKey(es, k) <==> k in Keys(es)
  {
    if k in Keys(es) {
      var i :| 0 <= i < |es| && Keys(es)[i] == k;
    }
  }

  /** Each key reads back the value of its last assignment: a later
      assignment overwrites an earlier one. */
  lemma {:induction false} PutAllGet<V>(ps: seq<(Key, V)>, k: Key)
    ensures Get(PutAll(ps), k) == LastValue(ps, k)
  {
    if ps != [] {
      var pre := ps[..|ps| - 1];
      PutAllGet(pre, k);
      if ps[|ps| - 1].0 != k {
        PutOther(PutAll(pre), ps[|ps| - 1].0, ps[|ps| - 1].1, k);
      }
    }
  }

  /** The keys come out in the order of their first assignment: a key
      assigned again keeps its place. */
  lemma {:induction false} PutAllKeys<V>(ps: seq<(Key, V)>)
    ensures Keys(PutAll(ps)) == FirstKeys(Keys(ps))
  {
    if ps != [] {
      var pre := ps[..|ps| - 1];
      var (k, v) := ps[|ps| - 1];
      PutAllKeys(pre);
      assert Keys(ps)[..|ps| - 1] == Keys(pre);
      var acc := PutAll(pre);
      HasKeyIsKey(acc, k);
      PutShape(acc, k, v);
      if HasKey(acc, k) {
        assert Keys(Put(acc, k, v)) == Keys(acc);
      } else {
        assert Keys(Put(acc, k, v)) == Keys(acc) + [k];
      }
    }
  }

  /** One more assignment, or none, at the end of the run. */
  lemma PutAllSnoc<V>(ps: seq<(Key, V)>, q: seq<(Key, V)>)
    requires |q| <= 1
    ensures PutAll(ps + q) == if q == [] then PutAll(ps) else Put(PutAll(ps), q[0].0, q[0].1)
  {
    if q == [] {
      assert ps + q == ps;
    } else {
      assert (ps + q)[..|ps + q| - 1] == ps;
    }
  }

  /** Assignments under distinct keys give the array they list. */
  lemma {:induction false} PutAllDistinct<V>(ps: seq<(Key, V)>)
    requires UniqueKeys(ps)
    ensures PutAll(ps) == ps
  {
    if ps != [] {
      var pre := ps[..|ps| - 1];
      PutAllDistinct(pre);
      assert !HasKey(pre, ps[|ps| - 1].0) by {
        forall i | 0 <= i < |pre| ensures pre[i].0 != ps[|ps| - 1].0 {
          assert pre[i] == ps[i];
        }
      }
      assert pre + [ps[|ps| - 1]] == ps;
    }
  }

  /** The method of `ms` PHP's case-insensitive `method_exists` finds for `name`. */
  function FindMethod(ms: seq<Method>, name: string): (r: Option<nat>)
    ensures r.Some? ==> r.value < |ms| && Lower(ms[r.value].name) == Lower(name)
    ensures r.None? <==> forall j :: 0 <= j < |ms| ==> Lower(ms[j].name) != Lower(name)
  {
    if ms == [] then None
    else if Lower(ms[0].name) == Lower(name) then Some(0)
    else match FindMethod(ms[1..], name)
      case None => None
      case Some(j) => Some(j + 1)
  }

  /** PHP's `is_a($object, $class)`: the class itself or one of its ancestors,
      class names compared case-insensitively. */
  predicate IsA(cls: ClassInfo, className: string)
  {
    Lower(cls.name) == Lower(className)
    || exists j :: 0 <= j < |cls.ancestors| && Lower(cls.ancestors[j]) == Lower(className)
  }
}
