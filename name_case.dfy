/** The regular-expression rewrites behind the property-name handlers and
    patterns, each written as the left-to-right, non-overlapping scan that
    `preg_replace_callback` performs: at each position the pattern is tried;
    on a match its replacement is emitted and the scan resumes after the
    match, otherwise the character is kept and the scan moves on by one. */
module NameCase {
  import opened Text

  /** Length of the run of `[A-Z]` at the head of `t`. */
  function UpperRun(t: string): (n: nat)
    ensures n <= |t|
    ensures forall i :: 0 <= i < n ==> IsUpper(t[i])
    ensures n < |t| ==> !IsUpper(t[n])
  {
    if t != [] && IsUpper(t[0]) then 1 + UpperRun(t[1..]) else 0
  }

  /** Length of the match of `/(^|[a-z])([A-Z]+)([A-Z][a-z])/U` at the head of
      `t` (0 when the pattern does not match there). `atStart` says whether the
      head of `t` is the start of the subject, where `^` matches. Lazy or
      greedy, `[A-Z]+` must stop one short of the end of the capital run,
      because only the last capital of the run is followed by `[a-z]`; so the
      run has at least two capitals and is followed by a lower-case letter. */
  function AcronymMatch(t: string, atStart: bool): (len: nat)
    ensures len == 0 || 3 <= len <= |t|
    ensures len > 0 ==> IsUpper(t[len - 3]) && IsUpper(t[len - 2]) && IsLower(t[len - 1])
  {
    var n := UpperRun(t);
    if atStart && 2 <= n < |t| && IsLower(t[n]) then
      n + 1
    else if |t| > 0 && IsLower(t[0]) && 2 <= UpperRun(t[1..]) < |t| - 1 && IsLower(t[1 + UpperRun(t[1..])]) then
      UpperRun(t[1..]) + 2
    else
      0
  }

  /** The replacement `$1 . $2 . '_' . strtolower($3)` for a match `m`, whose
      last two characters are group 3. */
  function AcronymReplacement(m: string): string
    requires |m| >= 2
  {
    m[..|m| - 2] + "_" + Lower(m[|m| - 2..])
  }

  /** First rewrite of the snake-case handler: split an acronym run before its
      last capital. */
  function AcronymPass(t: string, atStart: bool): string
    decreases |t|
  {
    if t == [] then []
    else
      var len := AcronymMatch(t, atStart);
      if len > 0 then AcronymReplacement(t[..len]) + AcronymPass(t[len..], false)
      else [t[0]] + AcronymPass(t[1..], false)
  }

  /** `/([a-z])([A-Z])/` replaced by `$1 . '_' . strtolower($2)`. */
  function CamelBoundaryPass(t: string): string
  {
    if |t| >= 2 && IsLower(t[0]) && IsUpper(t[1]) then [t[0], '_', LowerChar(t[1])] + CamelBoundaryPass(t[2..])
    else if t == [] then []
    else [t[0]] + CamelBoundaryPass(t[1..])
  }

  /** `/_([a-z])/i` replaced by `strtoupper($1)`. */
  function UnderscoreLetterPass(t: string): string
  {
    if |t| >= 2 && t[0] == '_' && IsLetter(t[1]) then [UpperChar(t[1])] + UnderscoreLetterPass(t[2..])
    else if t == [] then []
    else [t[0]] + UnderscoreLetterPass(t[1..])
  }

  /** `/([A-Z])/` replaced by `'_' . strtolower($1)`. */
  function UpperToUnderscorePass(t: string): string
  {
    if t == [] then []
    else (if IsUpper(t[0]) then ['_', LowerChar(t[0])] else [t[0]]) + UpperToUnderscorePass(t[1..])
  }

  // ---------------------------------------------------------------------
  // Lemmas about the scans

  /** Without capitals the acronym pattern never matches. */
  lemma {:induction false} AcronymPassNoUpper(t: string, atStart: bool)
    requires NoUpper(t)
    ensures AcronymPass(t, atStart) == t
  {
    if t != [] {
      assert AcronymMatch(t, atStart) == 0;
      AcronymPassNoUpper(t[1..], false);
      assert [t[0]] + t[1..] == t;
    }
  }

  lemma {:induction false} CamelBoundaryNoUpper(t: string)
    requires NoUpper(t)
    ensures CamelBoundaryPass(t) == t
  {
    if t != [] {
      CamelBoundaryNoUpper(t[1..]);
      assert [t[0]] + t[1..] == t;
    }
  }

  /** What is left of a name once case and underscores are ignored. */
  function Letters(s: string): string
  {
    StripUnderscores(Lower(s))
  }

  lemma LettersAppend(a: string, b: string)
    ensures Letters(a + b) == Letters(a) + Letters(b)
  {
    LowerAppend(a, b);
    StripAppend(Lower(a), Lower(b));
  }

  lemma LettersOfLower(s: string)
    ensures Letters(Lower(s)) == Letters(s)
  {
    LowerNoUpper(s);
    LowerIdentity(Lower(s));
  }

  lemma LettersUnderscore()
    ensures Letters("_") == []
  {
    assert Lower("_") == "_";
    assert "_"[1..] == [];
  }

  lemma LettersOfReplacement(m: string)
    requires |m| >= 2
    ensures Letters(AcronymReplacement(m)) == Letters(m)
  {
    var a, b := m[..|m| - 2], m[|m| - 2..];
    assert m == a + b;
    LettersAppend(a + "_", Lower(b));
    LettersAppend(a, "_");
    LettersUnderscore();
    LettersOfLower(b);
    LettersAppend(a, b);
  }

  /** The acronym pass only inserts underscores and lower-cases letters. */
  lemma {:induction false} AcronymPassStrip(t: string, atStart: bool)
    ensures Letters(AcronymPass(t, atStart)) == Letters(t)
    decreases |t|
  {
    if t != [] {
      var len := AcronymMatch(t, atStart);
      if len > 0 {
        var m, rest := t[..len], t[len..];
        AcronymPassStrip(rest, false);
        assert t == m + rest;
        LettersAppend(AcronymReplacement(m), AcronymPass(rest, false));
        LettersOfReplacement(m);
        LettersAppend(m, rest);
      } else {
        AcronymPassStrip(t[1..], false);
        AcronymPassStripPlain(t, atStart);
      }
    }
  }

  /** One step of `AcronymPassStrip` where the head character is kept. */
  lemma AcronymPassStripPlain(t: string, atStart: bool)
    requires t != [] && AcronymMatch(t, atStart) == 0
    requires Letters(AcronymPass(t[1..], false)) == Letters(t[1..])
    ensures Letters(AcronymPass(t, atStart)) == Letters(t)
  {
    var rest := t[1..];
    assert [t[0]] + rest == t;
    assert AcronymPass(t, atStart) == [t[0]] + AcronymPass(rest, false);
    LettersAppend([t[0]], AcronymPass(rest, false));
    LettersAppend([t[0]], rest);
  }

  /** The camel-boundary pass only inserts underscores and lower-cases letters. */
  lemma {:induction false} CamelBoundaryStrip(t: string)
    ensures Letters(CamelBoundaryPass(t)) == Letters(t)
  {
    if |t| >= 2 && IsLower(t[0]) && IsUpper(t[1]) {
      CamelBoundaryStrip(t[2..]);
      assert t == [t[0]] + [t[1]] + t[2..];
      assert [t[0], '_', LowerChar(t[1])] == [t[0]] + "_" + [LowerChar(t[1])];
      LettersAppend([t[0]] + "_" + [LowerChar(t[1])], CamelBoundaryPass(t[2..]));
      LettersAppend([t[0]] + "_", [LowerChar(t[1])]);
      LettersAppend([t[0]], "_");
      LettersUnderscore();
      assert [LowerChar(t[1])] == Lower([t[1]]);
      LettersOfLower([t[1]]);
      LettersAppend([t[0]] + [t[1]], t[2..]);
      LettersAppend([t[0]], [t[1]]);
    } else if t != [] {
      CamelBoundaryStrip(t[1..]);
      assert t == [t[0]] + t[1..];
      LettersAppend([t[0]], CamelBoundaryPass(t[1..]));
      LettersAppend([t[0]], t[1..]);
    }
  }

  /** Each capital of the output stands for one removed `_letter` pair, so
      output length plus its capitals is the input length. */
  lemma {:induction false} UnderscoreLetterLength(t: string)
    requires NoUpper(t)
    ensures |UnderscoreLetterPass(t)| + CountUpper(UnderscoreLetterPass(t)) == |t|
  {
    if |t| >= 2 && t[0] == '_' && IsLetter(t[1]) {
      UnderscoreLetterLength(t[2..]);
      CountUpperAppend([UpperChar(t[1])], UnderscoreLetterPass(t[2..]));
    } else if t != [] {
      UnderscoreLetterLength(t[1..]);
      CountUpperAppend([t[0]], UnderscoreLetterPass(t[1..]));
    }
  }

  /** Without underscores the `_letter` pattern never matches. */
  lemma {:induction false} UnderscoreLetterNoUnderscore(t: string)
    requires '_' !in t
    ensures UnderscoreLetterPass(t) == t
  {
    if t != [] {
      assert forall c :: c in t[1..] ==> c in t;
      UnderscoreLetterNoUnderscore(t[1..]);
      assert [t[0]] + t[1..] == t;
    }
  }

  /** The `_letter` pass works piecewise across a cut that does not fall
      right after an underscore. */
  lemma {:induction false} UnderscoreLetterAppend(a: string, b: string)
    requires a == [] || a[|a| - 1] != '_'
    ensures UnderscoreLetterPass(a + b) == UnderscoreLetterPass(a) + UnderscoreLetterPass(b)
    decreases |a|
  {
    if a == [] {
      assert a + b == b;
    } else if |a| >= 2 && a[0] == '_' && IsLetter(a[1]) {
      var tail := a[2..];
      assert tail == [] || tail[|tail| - 1] == a[|a| - 1];
      UnderscoreLetterAppend(tail, b);
      UnderscoreLetterPairHead(a, b);
      AppendAssoc([UpperChar(a[1])], UnderscoreLetterPass(tail), UnderscoreLetterPass(b));
    } else {
      var tail := a[1..];
      assert tail == [] || tail[|tail| - 1] == a[|a| - 1];
      UnderscoreLetterAppend(tail, b);
      UnderscoreLetterPlainHead(a, b);
      AppendAssoc([a[0]], UnderscoreLetterPass(tail), UnderscoreLetterPass(b));
    }
  }

  /** An `_x` match at the front of `a` is rewritten the same in `a` and
      `a + b`. */
  lemma UnderscoreLetterPairHead(a: string, b: string)
    requires |a| >= 2 && a[0] == '_' && IsLetter(a[1])
    ensures UnderscoreLetterPass(a) == [UpperChar(a[1])] + UnderscoreLetterPass(a[2..])
    ensures UnderscoreLetterPass(a + b) == [UpperChar(a[1])] + UnderscoreLetterPass(a[2..] + b)
  {
    assert (a + b)[2..] == a[2..] + b;
  }

  /** A front character of `a` that starts no `_x` match, in `a` nor in
      `a + b`, is kept in both. */
  lemma UnderscoreLetterPlainHead(a: string, b: string)
    requires a != [] && a[|a| - 1] != '_' && !(|a| >= 2 && a[0] == '_' && IsLetter(a[1]))
    ensures UnderscoreLetterPass(a) == [a[0]] + UnderscoreLetterPass(a[1..])
    ensures UnderscoreLetterPass(a + b) == [a[0]] + UnderscoreLetterPass(a[1..] + b)
  {
    assert (a + b)[1..] == a[1..] + b;
  }

  /** Turning capitals back into `_letter` undoes the `_letter` pass on a
      string without capitals: underscores the pass kept stay where they were. */
  lemma {:induction false} UnderscoreLetterThenUpperToUnderscore(t: string)
    requires NoUpper(t)
    ensures UpperToUnderscorePass(UnderscoreLetterPass(t)) == t
  {
    if |t| >= 2 && t[0] == '_' && IsLetter(t[1]) {
      UnderscoreLetterThenUpperToUnderscore(t[2..]);
      assert t == ['_', t[1]] + t[2..];
      assert ([UpperChar(t[1])] + UnderscoreLetterPass(t[2..]))[1..] == UnderscoreLetterPass(t[2..]);
    } else if t != [] {
      UnderscoreLetterThenUpperToUnderscore(t[1..]);
      assert t == [t[0]] + t[1..];
      assert ([t[0]] + UnderscoreLetterPass(t[1..]))[1..] == UnderscoreLetterPass(t[1..]);
    }
  }

  /** The `_letter` pass undoes the capital-to-underscore pass on a string
      without underscores. */
  lemma {:induction false} UpperToUnderscoreThenUnderscoreLetter(t: string)
    requires '_' !in t
    ensures UnderscoreLetterPass(UpperToUnderscorePass(t)) == t
  {
    if t != [] {
      assert forall c :: c in t[1..] ==> c in t;
      UpperToUnderscoreThenUnderscoreLetter(t[1..]);
      var rest := UpperToUnderscorePass(t[1..]);
      if IsUpper(t[0]) {
        var u := ['_', LowerChar(t[0])] + rest;
        assert u[2..] == rest;
        assert UnderscoreLetterPass(u) == [UpperChar(LowerChar(t[0]))] + UnderscoreLetterPass(rest);
      } else {
        var u := [t[0]] + rest;
        assert u[1..] == rest;
        assert UnderscoreLetterPass(u) == [t[0]] + UnderscoreLetterPass(rest);
      }
      assert t == [t[0]] + t[1..];
    }
  }

  /** No underscore directly before a lower-case letter: nothing is left for
      the `_x` pattern to match once the input has been lower-cased. */
  predicate NoUnderscoreLower(s: string)
  {
    forall i :: 0 <= i < |s| - 1 ==> !(s[i] == '_' && IsLower(s[i + 1]))
  }

  /** The `_x` pass leaves no underscore before a lower-case letter: every
      such pair is rewritten, and an underscore before anything else is kept
      next to a character that is not lower-case. The first character of the
      result is lower-case exactly when the input's is. */
  lemma {:induction false} UnderscoreLetterNoPair(t: string)
    ensures NoUnderscoreLower(UnderscoreLetterPass(t))
    ensures |t| > 0 ==> |UnderscoreLetterPass(t)| > 0 && (IsLower(UnderscoreLetterPass(t)[0]) <==> IsLower(t[0]))
    decreases |t|
  {
    if |t| >= 2 && t[0] == '_' && IsLetter(t[1]) {
      UnderscoreLetterNoPair(t[2..]);
      var rest := UnderscoreLetterPass(t[2..]);
      var r := [UpperChar(t[1])] + rest;
      assert IsUpper(r[0]);
      assert forall i :: 1 <= i < |r| ==> r[i] == rest[i - 1];
    } else if t != [] {
      UnderscoreLetterNoPair(t[1..]);
      var rest := UnderscoreLetterPass(t[1..]);
      var r := [t[0]] + rest;
      assert forall i :: 1 <= i < |r| ==> r[i] == rest[i - 1];
      assert t[0] == '_' && |t| >= 2 ==> !IsLower(rest[0]);
    }
  }

  /** The `_x` pass undoes the capital-to-underscore pass on every string that
      has no underscore before a lower-case letter, capitals and kept
      underscores included. */
  lemma {:induction false} UpperToUnderscoreThenUnderscoreLetterPairFree(t: string)
    requires NoUnderscoreLower(t)
    ensures UnderscoreLetterPass(UpperToUnderscorePass(t)) == t
  {
    if t != [] {
      NoUnderscoreLowerTail(t);
      UpperToUnderscoreThenUnderscoreLetterPairFree(t[1..]);
      var rest := UpperToUnderscorePass(t[1..]);
      if IsUpper(t[0]) {
        UnderscoreLetterUpperStep(t[0], rest);
      } else {
        if t[0] == '_' && |t| >= 2 {
          assert !IsLower(t[1]);
          assert rest[0] == (if IsUpper(t[1]) then '_' else t[1]);
        }
        UnderscoreLetterPlainStep(t[0], rest);
      }
      assert t == [t[0]] + t[1..];
    }
  }

  lemma NoUnderscoreLowerTail(t: string)
    requires t != [] && NoUnderscoreLower(t)
    ensures NoUnderscoreLower(t[1..])
  {
    forall i | 0 <= i < |t[1..]| - 1
      ensures !(t[1..][i] == '_' && IsLower(t[1..][i + 1]))
    {
      assert t[1..][i] == t[i + 1] && t[1..][i + 1] == t[i + 2];
    }
  }

  /** The `_x` pass turns the `_` and lower-cased capital put in by the
      capital-to-underscore pass back into the capital. */
  lemma UnderscoreLetterUpperStep(c: char, rest: string)
    requires IsUpper(c)
    ensures UnderscoreLetterPass(['_', LowerChar(c)] + rest) == [c] + UnderscoreLetterPass(rest)
  {
    var u := ['_', LowerChar(c)] + rest;
    assert u[2..] == rest;
  }

  /** A character that starts no `_x` match is kept by the `_x` pass. */
  lemma UnderscoreLetterPlainStep(c: char, rest: string)
    requires c == '_' ==> rest == [] || !IsLetter(rest[0])
    ensures UnderscoreLetterPass([c] + rest) == [c] + UnderscoreLetterPass(rest)
  {
    var u := [c] + rest;
    assert u[1..] == rest;
  }

  lemma {:induction false} UpperToUnderscoreFacts(t: string)
    ensures NoUpper(UpperToUnderscorePass(t))
    ensures |UpperToUnderscorePass(t)| == |t| + CountUpper(t)
    ensures NoUpper(t) ==> UpperToUnderscorePass(t) == t
  {
    if t != [] {
      UpperToUnderscoreFacts(t[1..]);
      var head := if IsUpper(t[0]) then ['_', LowerChar(t[0])] else [t[0]];
      var r := head + UpperToUnderscorePass(t[1..]);
      assert forall i :: |head| <= i < |r| ==> r[i] == UpperToUnderscorePass(t[1..])[i - |head|];
      assert NoUpper(t) ==> r == [t[0]] + t[1..] == t;
    }
  }

  /** No two capitals in a row: an ordinary camel-case name, with no acronym. */
  predicate NoAcronym(t: string)
  {
    forall i :: 0 <= i < |t| - 1 ==> !(IsUpper(t[i]) && IsUpper(t[i + 1]))
  }

  /** A name without two capitals in a row gives the acronym pattern nothing
      to match. */
  lemma {:induction false} AcronymPassNoAcronym(t: string, atStart: bool)
    requires NoAcronym(t)
    ensures AcronymPass(t, atStart) == t
    decreases |t|
  {
    if t != [] {
      if |t| >= 2 {
        assert !(IsUpper(t[0]) && IsUpper(t[1]));
      }
      if |t| >= 3 {
        assert !(IsUpper(t[1]) && IsUpper(t[2]));
      }
      assert AcronymMatch(t, atStart) == 0;
      assert NoAcronym(t[1..]) by {
        forall i | 0 <= i < |t[1..]| - 1 ensures !(IsUpper(t[1..][i]) && IsUpper(t[1..][i + 1])) {
          assert t[1..][i] == t[i + 1] && t[1..][i + 1] == t[i + 2];
        }
      }
      AcronymPassNoAcronym(t[1..], false);
      assert [t[0]] + t[1..] == t;
    }
  }

  /** The camel-boundary scan works piecewise when the cut does not fall
      between a lower-case letter and a capital. */
  lemma {:induction false} CamelBoundaryAppend(a: string, b: string)
    requires a == [] || b == [] || !(IsLower(a[|a| - 1]) && IsUpper(b[0]))
    ensures CamelBoundaryPass(a + b) == CamelBoundaryPass(a) + CamelBoundaryPass(b)
    decreases |a|, 1
  {
    if a == [] {
      assert a + b == b;
    } else if |a| == 1 {
      assert (a + b)[1..] == b;
      assert CamelBoundaryPass(a) == a;
    } else if IsLower(a[0]) && IsUpper(a[1]) {
      CamelBoundaryAppendAtBoundary(a, b);
    } else {
      CamelBoundaryAppendAtPlain(a, b);
    }
  }

  lemma {:induction false} CamelBoundaryAppendAtBoundary(a: string, b: string)
    requires |a| >= 2 && IsLower(a[0]) && IsUpper(a[1])
    requires b == [] || !(IsLower(a[|a| - 1]) && IsUpper(b[0]))
    ensures CamelBoundaryPass(a + b) == CamelBoundaryPass(a) + CamelBoundaryPass(b)
    decreases |a|, 0
  {
    var head := [a[0], '_', LowerChar(a[1])];
    var tail := a[2..];
    assert tail == [] || tail[|tail| - 1] == a[|a| - 1];
    CamelBoundaryAppend(tail, b);
    CamelBoundaryBoundaryHead(a, b);
    AppendAssoc(head, CamelBoundaryPass(tail), CamelBoundaryPass(b));
  }

  lemma {:induction false} CamelBoundaryAppendAtPlain(a: string, b: string)
    requires |a| >= 2 && !(IsLower(a[0]) && IsUpper(a[1]))
    requires b == [] || !(IsLower(a[|a| - 1]) && IsUpper(b[0]))
    ensures CamelBoundaryPass(a + b) == CamelBoundaryPass(a) + CamelBoundaryPass(b)
    decreases |a|, 0
  {
    var tail := a[1..];
    assert tail[|tail| - 1] == a[|a| - 1];
    CamelBoundaryAppend(tail, b);
    CamelBoundaryPlainHead(a, b);
    AppendAssoc([a[0]], CamelBoundaryPass(tail), CamelBoundaryPass(b));
  }

  lemma AppendAssoc<T>(x: seq<T>, y: seq<T>, z: seq<T>)
    ensures x + (y + z) == (x + y) + z
  {
  }

  /** A boundary at the front of `a` is rewritten the same in `a` and `a + b`. */
  lemma CamelBoundaryBoundaryHead(a: string, b: string)
    requires |a| >= 2 && IsLower(a[0]) && IsUpper(a[1])
    ensures CamelBoundaryPass(a) == [a[0], '_', LowerChar(a[1])] + CamelBoundaryPass(a[2..])
    ensures CamelBoundaryPass(a + b) == [a[0], '_', LowerChar(a[1])] + CamelBoundaryPass(a[2..] + b)
  {
    assert (a + b)[2..] == a[2..] + b;
  }

  /** A front character of `a` that starts no boundary is kept the same in
      `a` and `a + b`. */
  lemma CamelBoundaryPlainHead(a: string, b: string)
    requires |a| >= 2 && !(IsLower(a[0]) && IsUpper(a[1]))
    ensures CamelBoundaryPass(a) == [a[0]] + CamelBoundaryPass(a[1..])
    ensures CamelBoundaryPass(a + b) == [a[0]] + CamelBoundaryPass(a[1..] + b)
  {
    assert (a + b)[1..] == a[1..] + b;
  }

  // ---------------------------------------------------------------------
  // Where the snake-case handler puts its underscores

  /** `s` with `_` inserted before every marked character, which is
      lower-cased. */
  function Split(s: string, m: seq<bool>): string
    requires |m| == |s|
    decreases |s|
  {
    if s == [] then []
    else (if m[0] then ['_', LowerChar(s[0])] else [s[0]]) + Split(s[1..], m[1..])
  }

  function Or(a: seq<bool>, b: seq<bool>): (r: seq<bool>)
    requires |a| == |b|
    ensures |r| == |a|
    ensures forall i :: 0 <= i < |a| ==> r[i] == (a[i] || b[i])
    decreases |a|
  {
    if a == [] then [] else [a[0] || b[0]] + Or(a[1..], b[1..])
  }

  /** The capitals right after a lower-case letter: where `/([a-z])([A-Z])/`
      puts its underscore. */
  function BoundaryMarks(s: string): (m: seq<bool>)
    ensures |m| == |s|
    ensures forall i :: 0 <= i < |s| ==> m[i] == (0 < i && IsLower(s[i - 1]) && IsUpper(s[i]))
  {
    BoundaryMarksAfter(s, false)
  }

  /** `BoundaryMarks` of `s` when the character before it is lower-case
      exactly when `afterLower` holds. */
  function BoundaryMarksAfter(s: string, afterLower: bool): (m: seq<bool>)
    ensures |m| == |s|
    ensures |s| > 0 ==> m[0] == (afterLower && IsUpper(s[0]))
    ensures forall i :: 0 < i < |s| ==> m[i] == (IsLower(s[i - 1]) && IsUpper(s[i]))
    decreases |s|
  {
    if s == [] then []
    else [afterLower && IsUpper(s[0])] + BoundaryMarksAfter(s[1..], IsLower(s[0]))
  }

  /** No marks at all. */
  function NoMarks(n: nat): (m: seq<bool>)
    ensures |m| == n
    ensures forall i :: 0 <= i < n ==> !m[i]
  {
    if n == 0 then [] else [false] + NoMarks(n - 1)
  }

  /** The marks of one acronym match of length `len`: its last capital. */
  function MatchMarks(len: nat): (m: seq<bool>)
    requires len >= 2
    ensures |m| == len
    ensures forall i :: 0 <= i < len ==> m[i] == (i == len - 2)
  {
    NoMarks(len - 2) + [true, false]
  }

  /** The capitals before which the acronym scan puts its underscore: the
      last capital of each run it matches. */
  function AcronymMarks(t: string, atStart: bool): (m: seq<bool>)
    ensures |m| == |t|
    decreases |t|
  {
    if t == [] then []
    else
      var len := AcronymMatch(t, atStart);
      if len > 0 then MatchMarks(len) + AcronymMarks(t[len..], false)
      else [false] + AcronymMarks(t[1..], false)
  }

  /** Every character the snake-case handler puts an underscore before. */
  function SnakeMarks(s: string): (m: seq<bool>)
    ensures |m| == |s|
  {
    Or(AcronymMarks(s, true), BoundaryMarks(s))
  }

  /** Marks only on capitals followed by a lower-case letter. */
  predicate Placed(t: string, m: seq<bool>)
    requires |m| == |t|
  {
    forall i :: 0 <= i < |t| && m[i] ==> i + 1 < |t| && IsUpper(t[i]) && IsLower(t[i + 1])
  }

  /** Marks only on the last capital of a run of at least two, followed by a
      lower-case letter. */
  predicate RunMarked(t: string, m: seq<bool>)
    requires |m| == |t|
  {
    forall i :: 0 <= i < |t| && m[i] ==> 0 < i < |t| - 1 && IsUpper(t[i - 1]) && IsUpper(t[i]) && IsLower(t[i + 1])
  }

  /** Every character the snake-case handler puts `_` before is a capital
      that follows a lower-case letter, or the last capital of a run of at
      least two that is followed by a lower-case letter. */
  lemma SnakeMarksWhere(s: string)
    ensures forall i :: 0 <= i < |s| && SnakeMarks(s)[i] ==> SplitsBefore(s, i)
  {
    AcronymMarksPlaced(s, true);
    RunOrBoundaryWhere(s, AcronymMarks(s, true));
  }

  /** `s[i]` is a capital after a lower-case letter, or the last capital of
      a run of at least two followed by a lower-case letter. */
  predicate SplitsBefore(s: string, i: int)
  {
    0 < i < |s| && IsUpper(s[i]) && (IsLower(s[i - 1]) || (IsUpper(s[i - 1]) && i + 1 < |s| && IsLower(s[i + 1])))
  }

  lemma RunOrBoundaryWhere(s: string, a: seq<bool>)
    requires |a| == |s| && RunMarked(s, a)
    ensures forall i :: 0 <= i < |s| && Or(a, BoundaryMarks(s))[i] ==> SplitsBefore(s, i)
  {
    forall i | 0 <= i < |s| && Or(a, BoundaryMarks(s))[i]
      ensures SplitsBefore(s, i)
    {
      RunOrBoundaryAt(s, a, i);
    }
  }

  lemma RunOrBoundaryAt(s: string, a: seq<bool>, i: nat)
    requires |a| == |s| && RunMarked(s, a) && i < |s| && Or(a, BoundaryMarks(s))[i]
    ensures SplitsBefore(s, i)
  {
    var b := BoundaryMarks(s);
    assert Or(a, b)[i] == (a[i] || b[i]);
    if a[i] {
      assert 0 < i < |s| - 1 && IsUpper(s[i - 1]) && IsUpper(s[i]) && IsLower(s[i + 1]);
    } else {
      assert b[i] == (0 < i && IsLower(s[i - 1]) && IsUpper(s[i]));
    }
  }

  /** The acronym scan of `t` reaches position `k`: no match takes the
      characters on both sides of it. */
  predicate Resumes(t: string, atStart: bool, k: nat)
    decreases |t|
  {
    if k == 0 then true
    else if t == [] then false
    else
      var len := AcronymMatch(t, atStart);
      if len > 0 then len <= k && Resumes(t[len..], false, k - len)
      else Resumes(t[1..], false, k - 1)
  }

  lemma DropAfter<T>(p: seq<T>, q: seq<T>, k: nat)
    requires |p| <= k <= |p| + |q|
    ensures (p + q)[k..] == q[k - |p|..]
  {
  }

  lemma DropTwice<T>(s: seq<T>, a: nat, b: nat)
    requires a <= b <= |s|
    ensures s[a..][b - a..] == s[b..]
  {
  }

  lemma TakeDrop<T>(s: seq<T>, k: nat)
    requires k <= |s|
    ensures s[..k] + s[k..] == s
  {
  }

  lemma {:induction false} SplitAppend(a: string, b: string, ma: seq<bool>, mb: seq<bool>)
    requires |ma| == |a| && |mb| == |b|
    ensures Split(a + b, ma + mb) == Split(a, ma) + Split(b, mb)
    decreases |a|
  {
    if a == [] {
      assert a + b == b && ma + mb == mb;
    } else {
      assert (a + b)[1..] == a[1..] + b && (ma + mb)[1..] == ma[1..] + mb;
      SplitAppend(a[1..], b, ma[1..], mb);
    }
  }

  lemma {:induction false} SplitUnmarked(s: string)
    ensures Split(s, NoMarks(|s|)) == s
    decreases |s|
  {
    if s != [] {
      SplitUnmarked(s[1..]);
      assert NoMarks(|s|)[1..] == NoMarks(|s| - 1);
      assert [s[0]] + s[1..] == s;
    }
  }

  lemma SplitLastTwo(a: char, b: char)
    ensures Split([a, b], [true, false]) == ['_', LowerChar(a), b]
  {
    assert Split([b], [false]) == [b] + Split([], []);
  }

  lemma ReplacementOfPair(a: string, x: char, y: char)
    requires IsLower(y)
    ensures AcronymReplacement(a + [x, y]) == a + ['_', LowerChar(x), y]
  {
    var w := a + [x, y];
    assert w[..|a|] == a && w[|a|..] == [x, y];
    assert Lower([x, y]) == [LowerChar(x), y];
  }

  lemma SplitOfPair(a: string, x: char, y: char)
    ensures Split(a + [x, y], MatchMarks(|a| + 2)) == a + ['_', LowerChar(x), y]
  {
    SplitAppend(a, [x, y], NoMarks(|a|), [true, false]);
    SplitUnmarked(a);
    SplitLastTwo(x, y);
  }

  lemma LastTwo(w: string)
    requires |w| >= 2
    ensures w == w[..|w| - 2] + [w[|w| - 2], w[|w| - 1]]
  {
  }

  /** A match's replacement inserts `_` before the last capital of its run. */
  lemma ReplacementIsSplit(w: string)
    requires |w| >= 2 && IsLower(w[|w| - 1])
    ensures AcronymReplacement(w) == Split(w, MatchMarks(|w|))
  {
    LastTwo(w);
    var a, x, y := w[..|w| - 2], w[|w| - 2], w[|w| - 1];
    ReplacementOfPair(a, x, y);
    SplitOfPair(a, x, y);
  }

  /** The acronym scan inserts `_` exactly before its marks. */
  lemma {:induction false} AcronymPassIsSplit(t: string, atStart: bool)
    ensures AcronymPass(t, atStart) == Split(t, AcronymMarks(t, atStart))
    decreases |t|, 1
  {
    if t != [] {
      if AcronymMatch(t, atStart) > 0 {
        AcronymPassIsSplitMatch(t, atStart);
      } else {
        AcronymPassIsSplit(t[1..], false);
        var m := AcronymMarks(t, atStart);
        assert m[0] == false && m[1..] == AcronymMarks(t[1..], false);
      }
    }
  }

  lemma {:induction false} AcronymPassIsSplitMatch(t: string, atStart: bool)
    requires AcronymMatch(t, atStart) > 0
    ensures AcronymPass(t, atStart) == Split(t, AcronymMarks(t, atStart))
    decreases |t|, 0
  {
    var len := AcronymMatch(t, atStart);
    var head, rest := t[..len], t[len..];
    MatchStep(t, atStart);
    AcronymPassIsSplit(rest, false);
    ReplacementIsSplit(head);
    SplitAppend(head, rest, MatchMarks(len), AcronymMarks(rest, false));
    TakeDrop(t, len);
  }

  /** Where the pattern matches, the scan emits the replacement and resumes
      after the match. */
  lemma MatchStep(t: string, atStart: bool)
    requires AcronymMatch(t, atStart) > 0
    ensures var len := AcronymMatch(t, atStart);
      && 3 <= len <= |t| && IsLower(t[..len][len - 1])
      && AcronymPass(t, atStart) == AcronymReplacement(t[..len]) + AcronymPass(t[len..], false)
      && AcronymMarks(t, atStart) == MatchMarks(len) + AcronymMarks(t[len..], false)
  {
  }

  /** The marks of a match, then those of the rest. */
  lemma MatchMarksStep(t: string, atStart: bool)
    requires AcronymMatch(t, atStart) > 0
    ensures AcronymMarks(t, atStart) == MatchMarks(AcronymMatch(t, atStart)) + AcronymMarks(t[AcronymMatch(t, atStart)..], false)
  {
  }

  /** A run-marked piece followed by a run-marked piece is run-marked. */
  lemma RunMarkedAppend(a: string, b: string, ma: seq<bool>, mb: seq<bool>)
    requires |ma| == |a| && |mb| == |b|
    requires RunMarked(a, ma) && RunMarked(b, mb)
    ensures RunMarked(a + b, ma + mb)
  {
    var t, m := a + b, ma + mb;
    forall i | 0 <= i < |t| && m[i]
      ensures 0 < i < |t| - 1 && IsUpper(t[i - 1]) && IsUpper(t[i]) && IsLower(t[i + 1])
    {
      if i < |a| {
        assert ma[i];
      } else {
        assert mb[i - |a|] && t[i] == b[i - |a|] && t[i - 1] == b[i - |a| - 1] && t[i + 1] == b[i - |a| + 1];
      }
    }
  }

  lemma MatchRunMarked(w: string)
    requires |w| >= 3 && IsUpper(w[|w| - 3]) && IsUpper(w[|w| - 2]) && IsLower(w[|w| - 1])
    ensures RunMarked(w, MatchMarks(|w|))
  {
  }

  /** Each acronym mark is the last capital of a run of at least two,
      followed by a lower-case letter. */
  lemma {:induction false} AcronymMarksPlaced(t: string, atStart: bool)
    ensures RunMarked(t, AcronymMarks(t, atStart))
    decreases |t|, 1
  {
    if t != [] {
      if AcronymMatch(t, atStart) > 0 {
        AcronymMarksPlacedMatch(t, atStart);
      } else {
        AcronymMarksPlaced(t[1..], false);
        RunMarkedAppend([t[0]], t[1..], [false], AcronymMarks(t[1..], false));
        TakeDrop(t, 1);
      }
    }
  }

  lemma {:induction false} AcronymMarksPlacedMatch(t: string, atStart: bool)
    requires AcronymMatch(t, atStart) > 0
    ensures RunMarked(t, AcronymMarks(t, atStart))
    decreases |t|, 0
  {
    var len := AcronymMatch(t, atStart);
    AcronymMarksPlaced(t[len..], false);
    MatchRunMarked(t[..len]);
    RunMarkedAppend(t[..len], t[len..], MatchMarks(len), AcronymMarks(t[len..], false));
    TakeDrop(t, len);
  }

  lemma AcronymMarksArePlaced(t: string, atStart: bool)
    ensures Placed(t, AcronymMarks(t, atStart))
  {
    AcronymMarksPlaced(t, atStart);
  }

  lemma PlacedDrop(t: string, m: seq<bool>, d: nat)
    requires |m| == |t| && d <= |t| && Placed(t, m)
    ensures Placed(t[d..], m[d..])
  {
    assert forall i :: 0 <= i < |t| - d ==> t[d..][i] == t[i + d] && m[d..][i] == m[i + d];
  }

  /** Past a cut that does not fall between a lower-case letter and a
      capital, the boundary marks of the rest are its own. */
  lemma BoundaryMarksDrop(t: string, d: nat)
    requires 1 <= d <= |t|
    requires d < |t| ==> !(IsLower(t[d - 1]) && IsUpper(t[d]))
    ensures BoundaryMarks(t)[d..] == BoundaryMarks(t[d..])
  {
    var a, b := BoundaryMarks(t)[d..], BoundaryMarks(t[d..]);
    forall i | 0 <= i < |a|
      ensures a[i] == b[i]
    {
      assert t[d..][i] == t[d + i];
      if i > 0 {
        assert t[d..][i - 1] == t[d + i - 1];
      }
    }
    assert a == b;
  }

  lemma OrDrop(a: seq<bool>, b: seq<bool>, d: nat)
    requires |a| == |b| && d <= |a|
    ensures Or(a, b)[d..] == Or(a[d..], b[d..])
  {
  }

  /** A character the boundary pattern cannot start a match at is kept. */
  lemma CamelBoundaryKeep(c: char, w: string)
    requires w == [] || !(IsLower(c) && IsUpper(w[0]))
    ensures CamelBoundaryPass([c] + w) == [c] + CamelBoundaryPass(w)
  {
    assert ([c] + w)[1..] == w;
  }

  /** A lower-case letter then a capital is a match. */
  lemma CamelBoundaryPair(c: char, d: char, w: string)
    requires IsLower(c) && IsUpper(d)
    ensures CamelBoundaryPass([c, d] + w) == [c, '_', LowerChar(d)] + CamelBoundaryPass(w)
  {
    assert ([c, d] + w)[2..] == w;
  }

  /** A lower-case letter followed by a capital gets `_` between them,
      whatever surrounds the pair. */
  lemma CamelBoundarySplit(a: string, x: char, y: char, b: string)
    requires IsLower(x) && IsUpper(y)
    ensures CamelBoundaryPass(a + [x, y] + b) == CamelBoundaryPass(a) + [x, '_', LowerChar(y)] + CamelBoundaryPass(b)
  {
    var rest := [x, y] + b;
    assert a + [x, y] + b == a + rest;
    CamelBoundaryAppend(a, rest);
    CamelBoundaryPair(x, y, b);
  }

  /** The boundary pass adds the boundary marks of the original name to
      marks placed on capitals followed by a lower-case letter. */
  lemma {:induction false} BoundaryOfSplit(t: string, m: seq<bool>)
    requires |m| == |t| && Placed(t, m)
    ensures CamelBoundaryPass(Split(t, m)) == Split(t, Or(m, BoundaryMarks(t)))
    decreases |t|
  {
    if t != [] {
      var o := Or(m, BoundaryMarks(t));
      if m[0] {
        BoundaryOfSplitMarked(t, m);
      } else if |t| >= 2 && IsLower(t[0]) && IsUpper(t[1]) {
        BoundaryOfSplitPair(t, m);
      } else {
        PlacedDrop(t, m, 1);
        BoundaryOfSplit(t[1..], m[1..]);
        BoundaryMarksDrop(t, 1);
        OrDrop(m, BoundaryMarks(t), 1);
        var s1 := Split(t[1..], m[1..]);
        assert s1 != [] ==> s1[0] == (if m[1] then '_' else t[1]);
        CamelBoundaryKeep(t[0], s1);
      }
    }
  }

  lemma {:induction false} BoundaryOfSplitMarked(t: string, m: seq<bool>)
    requires |m| == |t| && Placed(t, m) && t != [] && m[0]
    ensures CamelBoundaryPass(Split(t, m)) == Split(t, Or(m, BoundaryMarks(t)))
    decreases |t|, 0
  {
    PlacedDrop(t, m, 1);
    BoundaryOfSplit(t[1..], m[1..]);
    BoundaryMarksDrop(t, 1);
    OrDrop(m, BoundaryMarks(t), 1);
    var s1 := Split(t[1..], m[1..]);
    assert !m[1] && s1[0] == t[1];
    SplitHead(t, m);
    MarkedHead(LowerChar(t[0]), s1);
  }

  /** `Split` on the first character. */
  lemma SplitHead(t: string, m: seq<bool>)
    requires |m| == |t| && t != []
    ensures Split(t, m) == (if m[0] then ['_', LowerChar(t[0])] else [t[0]]) + Split(t[1..], m[1..])
  {
  }

  lemma MarkedHead(c: char, s1: string)
    requires s1 != [] && !IsUpper(s1[0])
    ensures CamelBoundaryPass(['_', c] + s1) == ['_', c] + CamelBoundaryPass(s1)
  {
    var w := [c] + s1;
    CamelBoundaryKeep(c, s1);
    CamelBoundaryKeep('_', w);
    assert ['_', c] + s1 == ['_'] + w;
  }

  lemma {:induction false} BoundaryOfSplitPair(t: string, m: seq<bool>)
    requires |m| == |t| && Placed(t, m) && |t| >= 2 && !m[0]
    requires IsLower(t[0]) && IsUpper(t[1])
    ensures CamelBoundaryPass(Split(t, m)) == Split(t, Or(m, BoundaryMarks(t)))
    decreases |t|, 0
  {
    var o := Or(m, BoundaryMarks(t));
    PlacedDrop(t, m, 2);
    BoundaryOfSplit(t[2..], m[2..]);
    BoundaryMarksDrop(t, 2);
    OrDrop(m, BoundaryMarks(t), 2);
    SplitTwo(t, o);
    SplitTwo(t, m);
    PairThenSplit(t, m);
  }

  /** `Split` on the first two characters. */
  lemma SplitTwo(t: string, m: seq<bool>)
    requires |m| == |t| >= 2
    ensures Split(t, m) == (if m[0] then ['_', LowerChar(t[0])] else [t[0]])
                           + (if m[1] then ['_', LowerChar(t[1])] else [t[1]])
                           + Split(t[2..], m[2..])
  {
    assert t[1..][1..] == t[2..] && m[1..][1..] == m[2..];
  }

  /** After a lower-case letter and a capital, marked or not, the boundary
      pass gives the same three characters. */
  lemma PairThenSplit(t: string, m: seq<bool>)
    requires |m| == |t| >= 2 && Placed(t, m) && IsLower(t[0]) && IsUpper(t[1])
    ensures CamelBoundaryPass([t[0]] + (if m[1] then ['_', LowerChar(t[1])] else [t[1]]) + Split(t[2..], m[2..]))
         == [t[0], '_', LowerChar(t[1])] + CamelBoundaryPass(Split(t[2..], m[2..]))
  {
    var s2 := Split(t[2..], m[2..]);
    if m[1] {
      assert !m[2];
      assert s2 == [t[2]] + Split(t[3..], m[3..]);
      MarkedThenLower(t[0], t[1], s2);
    } else {
      assert [t[0]] + [t[1]] + s2 == [t[0], t[1]] + s2;
      CamelBoundaryPair(t[0], t[1], s2);
    }
  }

  lemma MarkedThenLower(c: char, d: char, s2: string)
    requires s2 != [] && IsLower(s2[0])
    ensures CamelBoundaryPass([c] + ['_', LowerChar(d)] + s2) == [c, '_', LowerChar(d)] + CamelBoundaryPass(s2)
  {
    var w := [LowerChar(d)] + s2;
    var v := ['_'] + w;
    CamelBoundaryKeep(LowerChar(d), s2);
    CamelBoundaryKeep('_', w);
    CamelBoundaryKeep(c, v);
    assert [c] + ['_', LowerChar(d)] + s2 == [c] + v;
    assert [c] + (['_'] + ([LowerChar(d)] + CamelBoundaryPass(s2))) == [c, '_', LowerChar(d)] + CamelBoundaryPass(s2);
  }

  /** A name with no lower-case letter right before a capital is left alone
      by the boundary pass. */
  lemma CamelBoundaryNoPair(t: string)
    requires forall i :: 0 < i < |t| ==> !(IsLower(t[i - 1]) && IsUpper(t[i]))
    ensures CamelBoundaryPass(t) == t
  {
    SplitUnmarked(t);
    NoMarksPlaced(t);
    BoundaryOfSplit(t, NoMarks(|t|));
    OrNoBoundary(t);
  }

  lemma NoMarksPlaced(t: string)
    ensures Placed(t, NoMarks(|t|))
  {
  }

  /** Without a lower-case letter before a capital, adding the boundary
      marks to no marks gives no marks. */
  lemma OrNoBoundary(t: string)
    requires forall i :: 0 < i < |t| ==> !(IsLower(t[i - 1]) && IsUpper(t[i]))
    ensures Or(NoMarks(|t|), BoundaryMarks(t)) == NoMarks(|t|)
  {
    BoundaryNone(t);
    OrNone(NoMarks(|t|), BoundaryMarks(t));
  }

  lemma BoundaryNone(t: string)
    requires forall i :: 0 < i < |t| ==> !(IsLower(t[i - 1]) && IsUpper(t[i]))
    ensures forall i :: 0 <= i < |t| ==> !BoundaryMarks(t)[i]
  {
    var b := BoundaryMarks(t);
    forall i | 0 <= i < |t|
      ensures !b[i]
    {
      if i > 0 {
        assert !(IsLower(t[i - 1]) && IsUpper(t[i]));
      }
    }
  }

  /** Adding no marks changes nothing. */
  lemma OrNone(a: seq<bool>, b: seq<bool>)
    requires |a| == |b| && forall i :: 0 <= i < |b| ==> !b[i]
    ensures Or(a, b) == a
  {
    var o := Or(a, b);
    assert forall i :: 0 <= i < |a| ==> o[i] == a[i];
  }

  /** The two passes of the snake-case handler together put `_` before
      exactly the marked characters. */
  lemma SnakeCaseSplits(s: string)
    ensures CamelBoundaryPass(AcronymPass(s, true)) == Split(s, SnakeMarks(s))
  {
    AcronymPassIsSplit(s, true);
    AcronymMarksArePlaced(s, true);
    BoundaryOfSplit(s, AcronymMarks(s, true));
  }

  /** Where the scan resumes, the marks of the rest are those of a fresh
      scan of the rest. */
  lemma {:induction false} AcronymMarksResume(t: string, atStart: bool, k: nat)
    requires k <= |t| && Resumes(t, atStart, k)
    ensures AcronymMarks(t, atStart)[k..] == AcronymMarks(t[k..], atStart && k == 0)
    decreases |t|, 1
  {
    var whole := AcronymMarks(t, atStart);
    if k == 0 {
      assert whole[k..] == whole && t[k..] == t;
    } else {
      var n, head := ScanStep(t, atStart, k);
      AcronymMarksResumeAfter(t, n, k, whole, head);
      assert whole[k..] == AcronymMarks(t[k..], false);
    }
  }

  /** One step of the scan: a match, or one kept character. */
  lemma ScanStep(t: string, atStart: bool, k: nat) returns (n: nat, head: seq<bool>)
    requires 0 < k <= |t| && Resumes(t, atStart, k)
    ensures 0 < n <= k && |head| == n
    ensures AcronymMarks(t, atStart) == head + AcronymMarks(t[n..], false)
    ensures Resumes(t[n..], false, k - n)
  {
    var len := AcronymMatch(t, atStart);
    if len > 0 {
      MatchMarksStep(t, atStart);
      ResumeStep(t, atStart, k);
      n, head := len, MatchMarks(len);
      assert 0 < n <= k && |head| == n;
    } else {
      PlainStep(t, atStart, k);
      n, head := 1, [false];
    }
  }

  /** Marks made of the first `len` marks and then the scan of the rest,
      read from a position the rest's scan reaches. */
  lemma {:induction false} AcronymMarksResumeAfter(t: string, len: nat, k: nat, whole: seq<bool>, head: seq<bool>)
    requires 0 < len <= k <= |t| && |head| == len
    requires whole == head + AcronymMarks(t[len..], false) && Resumes(t[len..], false, k - len)
    ensures whole[k..] == AcronymMarks(t[k..], false)
    decreases |t|, 0
  {
    var u := t[len..];
    var rest := AcronymMarks(u, false);
    AcronymMarksResume(u, false, k - len);
    assert rest[k - len..] == AcronymMarks(u[k - len..], false);
    DropAfter(head, rest, k);
    assert whole[k..] == rest[k - len..];
    DropTwice(t, len, k);
    assert u[k - len..] == t[k..];
  }

  /** Past a match, the scan resumes where the rest of the name's does. */
  lemma ResumeStep(t: string, atStart: bool, k: nat)
    requires 0 < k && Resumes(t, atStart, k) && AcronymMatch(t, atStart) > 0
    ensures AcronymMatch(t, atStart) <= k && Resumes(t[AcronymMatch(t, atStart)..], false, k - AcronymMatch(t, atStart))
  {
  }

  /** Where nothing matches, the scan keeps one character and moves on. */
  lemma PlainStep(t: string, atStart: bool, k: nat)
    requires 0 < k <= |t| && Resumes(t, atStart, k) && AcronymMatch(t, atStart) == 0
    ensures Resumes(t[1..], false, k - 1)
    ensures AcronymMarks(t, atStart) == [false] + AcronymMarks(t[1..], false)
  {
  }

  /** A run of two or more capitals that follows a lower-case letter no
      earlier match has taken, and is followed by a lower-case letter, is
      split before its last capital. */
  lemma AcronymSplitsAfterLower(t: string, atStart: bool, k: nat, n: nat)
    requires Resumes(t, atStart, k)
    requires n >= 2 && k + n + 1 < |t|
    requires IsLower(t[k]) && IsLower(t[k + n + 1])
    requires forall j :: k < j <= k + n ==> IsUpper(t[j])
    ensures AcronymMarks(t, atStart)[k + n]
  {
    var marks := AcronymMarks(t, atStart);
    AcronymMarksResume(t, atStart, k);
    RunAfterLowerMarked(t, atStart && k == 0, k, n);
    assert marks[k + n] == marks[k..][n];
  }

  /** The same, where the scan starts at the lower-case letter. */
  lemma RunAfterLowerMarked(t: string, atStart: bool, k: nat, n: nat)
    requires n >= 2 && k + n + 1 < |t|
    requires IsLower(t[k]) && IsLower(t[k + n + 1])
    requires forall j :: k < j <= k + n ==> IsUpper(t[j])
    ensures AcronymMarks(t[k..], atStart)[n]
  {
    var u := t[k..];
    var w := u[1..];
    assert forall j :: 0 <= j < |w| ==> w[j] == t[k + 1 + j];
    UpperRunIs(w, n);
    MatchAfterLower(u, atStart, n);
  }

  lemma UpperRunIs(u: string, n: nat)
    requires n < |u| && !IsUpper(u[n])
    requires forall j :: 0 <= j < n ==> IsUpper(u[j])
    ensures UpperRun(u) == n
  {
  }

  lemma MatchAfterLower(u: string, atStart: bool, n: nat)
    requires n >= 2 && n + 1 < |u| && IsLower(u[0]) && IsLower(u[n + 1]) && UpperRun(u[1..]) == n
    ensures AcronymMatch(u, atStart) == n + 2
    ensures AcronymMarks(u, atStart)[n]
  {
    assert UpperRun(u) == 0;
  }

  /** A run of two or more capitals that starts the name and is followed by
      a lower-case letter is split before its last capital. */
  lemma AcronymSplitsAtStart(t: string, n: nat)
    requires n >= 2 && n < |t|
    requires forall j :: 0 <= j < n ==> IsUpper(t[j])
    requires IsLower(t[n])
    ensures AcronymMarks(t, true)[n - 1]
  {
    assert UpperRun(t) == n;
    assert AcronymMatch(t, true) == n + 1;
  }

  /** The snake-case handler puts `_` before the last capital of a run of
      two or more that starts the name and is followed by a lower-case
      letter. */
  lemma SnakeMarksAtStart(s: string, n: nat)
    requires n >= 2 && n < |s|
    requires forall j :: 0 <= j < n ==> IsUpper(s[j])
    requires IsLower(s[n])
    ensures SnakeMarks(s)[n - 1]
  {
    AcronymSplitsAtStart(s, n);
  }

  /** The snake-case handler puts `_` before the last capital of a run of
      two or more that follows a lower-case letter the scan reaches, and is
      followed by a lower-case letter. */
  lemma SnakeMarksAfterLower(s: string, k: nat, n: nat)
    requires Resumes(s, true, k)
    requires n >= 2 && k + n + 1 < |s|
    requires IsLower(s[k]) && IsLower(s[k + n + 1])
    requires forall j :: k < j <= k + n ==> IsUpper(s[j])
    ensures SnakeMarks(s)[k + n]
  {
    AcronymSplitsAfterLower(s, true, k, n);
  }

  /** Capitals after neither the start of the name nor a lower-case letter,
      for example after `_` or a digit, are never split by the acronym scan. */
  lemma {:induction false} AcronymPassNoRunAfterLower(t: string, atStart: bool)
    requires forall i :: 0 <= i < |t| - 2 ==> !(IsLower(t[i]) && IsUpper(t[i + 1]) && IsUpper(t[i + 2]))
    requires atStart && |t| >= 2 ==> !(IsUpper(t[0]) && IsUpper(t[1]))
    ensures AcronymPass(t, atStart) == t
    decreases |t|
  {
    if t != [] {
      if |t| >= 3 {
        assert !(IsLower(t[0]) && IsUpper(t[1]) && IsUpper(t[2]));
      }
      assert AcronymMatch(t, atStart) == 0;
      assert forall i :: 0 <= i < |t| - 1 ==> t[1..][i] == t[i + 1];
      AcronymPassNoRunAfterLower(t[1..], false);
      assert [t[0]] + t[1..] == t;
    }
  }
}
