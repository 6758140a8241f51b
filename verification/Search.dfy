/** Literal substring search (app/core/base/repository.py, `_apply_search`): the search string is escaped so that ILIKE,
    as in section 9.7.1 of the PostgreSQL manual, looks for it and for nothing else. */
module Search {
  import opened Common

  // ----- Escaping -----

  /** `str.replace` of a single character. */
  function Replace(s: string, c: char, put: string): string {
    if s == "" then "" else (if s[0] == c then put else [s[0]]) + Replace(s[1..], c, put)
  }

  function Escape(s: string): string {
    Replace(Replace(Replace(s, '\\', "\\\\"), '%', "\\%"), '_', "\\_")
  }

  predicate Special(c: char) {
    c == '\\' || c == '%' || c == '_'
  }

  function Escaped(c: char): string {
    if Special(c) then ['\\', c] else [c]
  }

  lemma {:induction false} ReplaceConcat(s: string, t: string, c: char, put: string)
    ensures Replace(s + t, c, put) == Replace(s, c, put) + Replace(t, c, put)
  {
    if s == "" {
      assert s + t == t;
    } else {
      assert (s + t)[1..] == s[1..] + t;
      ReplaceConcat(s[1..], t, c, put);
    }
  }

  lemma ReplaceOne(a: char, c: char, put: string)
    ensures Replace([a], c, put) == if a == c then put else [a]
  {
    assert Replace([a][1..], c, put) == "";
  }

  lemma ReplaceTwo(a: char, b: char, c: char, put: string)
    ensures Replace([a, b], c, put) == (if a == c then put else [a]) + if b == c then put else [b]
  {
    assert [a, b][1..] == [b];
    ReplaceOne(b, c, put);
  }

  lemma ReplaceFirst(a: char, rest: string, c: char, put: string)
    ensures Replace([a] + rest, c, put) == (if a == c then put else [a]) + Replace(rest, c, put)
  {
    assert ([a] + rest)[1..] == rest;
  }

  lemma EscapePlain(a: char, tail: string)
    requires !Special(a)
    ensures Escape([a] + tail) == [a] + Escape(tail)
  {
    ReplaceFirst(a, tail, '\\', "\\\\");
    ReplaceFirst(a, Replace(tail, '\\', "\\\\"), '%', "\\%");
    ReplaceFirst(a, Replace(Replace(tail, '\\', "\\\\"), '%', "\\%"), '_', "\\_");
  }

  lemma EscapeUnderscore(tail: string)
    ensures Escape("_" + tail) == "\\_" + Escape(tail)
  {
    ReplaceFirst('_', tail, '\\', "\\\\");
    ReplaceFirst('_', Replace(tail, '\\', "\\\\"), '%', "\\%");
    ReplaceFirst('_', Replace(Replace(tail, '\\', "\\\\"), '%', "\\%"), '_', "\\_");
  }

  lemma EscapePercent(tail: string)
    ensures Escape("%" + tail) == "\\%" + Escape(tail)
  {
    var tail1 := Replace(tail, '\\', "\\\\");
    ReplaceFirst('%', tail, '\\', "\\\\");
    ReplaceFirst('%', tail1, '%', "\\%");
    ReplaceConcat("\\%", Replace(tail1, '%', "\\%"), '_', "\\_");
    ReplaceTwo('\\', '%', '_', "\\_");
  }

  lemma EscapeBackslash(tail: string)
    ensures Escape("\\" + tail) == "\\\\" + Escape(tail)
  {
    var tail1 := Replace(tail, '\\', "\\\\");
    ReplaceFirst('\\', tail, '\\', "\\\\");
    ReplaceConcat("\\\\", tail1, '%', "\\%");
    ReplaceTwo('\\', '\\', '%', "\\%");
    ReplaceConcat("\\\\", Replace(tail1, '%', "\\%"), '_', "\\_");
    ReplaceTwo('\\', '\\', '_', "\\_");
    assert ['\\'] + ['\\'] == "\\\\";
  }

  /** The three replacements, done in this order, put one backslash before each special character and no more. */
  lemma EscapeStep(s: string)
    requires s != ""
    ensures Escape(s) == Escaped(s[0]) + Escape(s[1..])
  {
    assert s == [s[0]] + s[1..];
    match s[0]
    case '\\' => EscapeBackslash(s[1..]);
    case '%' => EscapePercent(s[1..]);
    case '_' => EscapeUnderscore(s[1..]);
    case _ => EscapePlain(s[0], s[1..]);
  }

  // ----- LIKE -----

  datatype Atom = Literal(c: char) | AnyOne | AnyMany

  /** A pattern with escape character backslash; one that ends in an escape is an error. */
  function Parse(pattern: string): Option<seq<Atom>>
    decreases |pattern|
  {
    if pattern == "" then Some([])
    else if pattern[0] == '\\' then
      if |pattern| == 1 then None
      else match Parse(pattern[2..])
        case None => None
        case Some(rest) => Some([Literal(pattern[1])] + rest)
    else
      match Parse(pattern[1..])
      case None => None
      case Some(rest) =>
        Some([if pattern[0] == '%' then AnyMany else if pattern[0] == '_' then AnyOne else Literal(pattern[0])] + rest)
  }

  predicate Matches(atoms: seq<Atom>, text: string)
    decreases |atoms|, |text|
  {
    if atoms == [] then text == ""
    else match atoms[0]
      case Literal(c) => text != "" && text[0] == c && Matches(atoms[1..], text[1..])
      case AnyOne => text != "" && Matches(atoms[1..], text[1..])
      case AnyMany => Matches(atoms[1..], text) || (text != "" && Matches(atoms, text[1..]))
  }

  /** What the two wildcards mean: a single character, and any text. */
  lemma {:induction false} Wildcards(text: string)
    ensures Matches([AnyOne], text) <==> |text| == 1
    ensures Matches([AnyMany], text)
  {
    assert [AnyOne][1..] == [] && [AnyMany][1..] == [];
    if text != "" {
      Wildcards(text[1..]);
    }
  }

  function Fold(s: string, fold: char -> char): (r: string)
    ensures |r| == |s| && forall i :: 0 <= i < |s| ==> r[i] == fold(s[i])
  {
    seq(|s|, i requires 0 <= i < |s| => fold(s[i]))
  }

  /** Case folding leaves the special characters alone and makes no other character special. */
  ghost predicate Caseless(fold: char -> char) {
    forall c :: (Special(c) ==> fold(c) == c) && (Special(fold(c)) ==> fold(c) == c)
  }

  /** Pattern and text are folded, then matched. */
  function ILike(text: string, pattern: string, fold: char -> char): Option<bool> {
    match Parse(Fold(pattern, fold))
    case None => None
    case Some(atoms) => Some(Matches(atoms, Fold(text, fold)))
  }

  // ----- Escaped patterns are literal -----

  function Literals(s: string): (r: seq<Atom>)
    ensures |r| == |s|
  {
    seq(|s|, i requires 0 <= i < |s| => Literal(s[i]))
  }

  lemma ParseLiteral(c: char, tail: string)
    requires Parse(tail).Some?
    ensures Parse(['\\', c] + tail) == Some([Literal(c)] + Parse(tail).value)
    ensures !Special(c) ==> Parse([c] + tail) == Some([Literal(c)] + Parse(tail).value)
  {
    assert (['\\', c] + tail)[2..] == tail;
    assert ([c] + tail)[1..] == tail;
  }

  lemma FoldConcat(s: string, t: string, fold: char -> char)
    ensures Fold(s + t, fold) == Fold(s, fold) + Fold(t, fold)
  {
  }

  lemma {:induction false} EscapedParses(s: string, rest: string, fold: char -> char)
    requires Caseless(fold) && Parse(rest).Some?
    ensures Parse(Fold(Escape(s), fold) + rest) == Some(Literals(Fold(s, fold)) + Parse(rest).value)
  {
    if s == "" {
      assert Fold(Escape(s), fold) + rest == rest;
      assert Literals(Fold(s, fold)) + Parse(rest).value == Parse(rest).value;
    } else {
      EscapedParses(s[1..], rest, fold);
      var tail := Fold(Escape(s[1..]), fold) + rest;
      ParseLiteral(fold(s[0]), tail);
      EscapeStepFolds(s, rest, fold);
      var literals := Literals(Fold(s[1..], fold));
      assert Literals(Fold(s, fold)) + Parse(rest).value == [Literal(fold(s[0]))] + (literals + Parse(rest).value);
    }
  }

  lemma EscapedFolds(c: char, fold: char -> char)
    requires Caseless(fold)
    ensures Fold(Escaped(c), fold) == Escaped(fold(c))
  {
    assert Special('\\');
  }

  lemma EscapeStepFolds(s: string, rest: string, fold: char -> char)
    requires Caseless(fold) && s != ""
    ensures Fold(Escape(s), fold) + rest == Escaped(fold(s[0])) + (Fold(Escape(s[1..]), fold) + rest)
  {
    EscapeStep(s);
    FoldConcat(Escaped(s[0]), Escape(s[1..]), fold);
    EscapedFolds(s[0], fold);
    ConcatAssoc(Escaped(fold(s[0])), Fold(Escape(s[1..]), fold), rest);
  }

  lemma {:induction false} LiteralsMatch(s: string, rest: seq<Atom>, text: string)
    ensures Matches(Literals(s) + rest, text) <==> s <= text && Matches(rest, text[|s|..])
  {
    if s == "" {
      assert Literals(s) + rest == rest && text[0..] == text;
    } else {
      assert (Literals(s) + rest)[1..] == Literals(s[1..]) + rest;
      if text != "" {
        LiteralsMatch(s[1..], rest, text[1..]);
        assert s <= text <==> s[0] == text[0] && s[1..] <= text[1..];
        if s <= text {
          assert text[1..][|s| - 1..] == text[|s|..];
        }
      }
    }
  }

  lemma {:induction false} ManyMatchesAll(text: string)
    ensures Matches([AnyMany], text)
    decreases |text|
  {
    if text != "" {
      ManyMatchesAll(text[1..]);
    }
  }

  ghost predicate OccursIn(s: string, text: string) {
    exists i :: 0 <= i <= |text| && s <= text[i..]
  }

  lemma {:induction false} AnyLiteralsAny(s: string, text: string)
    ensures Matches([AnyMany] + Literals(s) + [AnyMany], text) <==> OccursIn(s, text)
    decreases |text|
  {
    var atoms := [AnyMany] + Literals(s) + [AnyMany];
    assert atoms[1..] == Literals(s) + [AnyMany];
    LiteralsMatch(s, [AnyMany], text);
    if s <= text {
      ManyMatchesAll(text[|s|..]);
      assert s <= text[0..];
    }
    if text == "" {
      assert OccursIn(s, text) ==> s <= text;
    } else {
      AnyLiteralsAny(s, text[1..]);
      if OccursIn(s, text) {
        var i :| 0 <= i <= |text| && s <= text[i..];
        assert i > 0 ==> text[1..][i - 1..] == text[i..];
      }
      if OccursIn(s, text[1..]) {
        var i :| 0 <= i <= |text| - 1 && s <= text[1..][i..];
        assert text[1..][i..] == text[i + 1..];
      }
    }
  }

  /** The search string is found wherever it occurs, up to case, and nowhere else, whatever special
      characters it holds. */
  lemma SearchIsLiteral(search: string, text: string, fold: char -> char)
    requires Caseless(fold)
    ensures ILike(text, "%" + Escape(search) + "%", fold) == Some(OccursIn(Fold(search, fold), Fold(text, fold)))
  {
    var pattern := "%" + Escape(search) + "%";
    assert Special('%') && pattern[0] == '%';
    var atoms := Literals(Fold(search, fold));
    assert "%"[1..] == "" && [AnyMany] + [] == [AnyMany];
    assert Parse("%") == Some([AnyMany]);
    EscapedParses(search, "%", fold);
    assert Fold(pattern, fold) == "%" + (Fold(Escape(search), fold) + "%");
    assert Fold(pattern, fold)[1..] == Fold(Escape(search), fold) + "%" && Fold(pattern, fold)[0] == '%';
    assert [AnyMany] + (atoms + [AnyMany]) == [AnyMany] + atoms + [AnyMany];
    AnyLiteralsAny(Fold(search, fold), Fold(text, fold));
  }

  // ----- The filter -----

  /** The columns of one row; None is SQL NULL. */
  type Row = map<string, Option<string>>

  /** Whether some condition of the OR is true; comparing NULL is not. A malformed pattern is an error. */
  function AnyField(row: Row, fields: seq<string>, pattern: string, fold: char -> char): Option<bool> {
    if fields == [] then Some(false)
    else
      match AnyField(row, fields[1..], pattern, fold)
      case None => None
      case Some(rest) =>
        if fields[0] !in row || row[fields[0]].None? then Some(rest)
        else match ILike(row[fields[0]].value, pattern, fold)
          case None => None
          case Some(hit) => Some(hit || rest)
  }

  /** `_apply_search`: no search string, no search fields or none that the model has means no condition. */
  function Keeps(row: Row, fields: seq<string>, search: Option<string>, fold: char -> char): Option<bool> {
    if search.None? || search.value == "" || fields == [] || (forall f :: f in fields ==> f !in row) then Some(true)
    else AnyField(row, fields, "%" + Escape(search.value) + "%", fold)
  }

  ghost predicate Found(row: Row, fields: seq<string>, s: string, fold: char -> char) {
    exists f :: f in fields && f in row && row[f].Some? && OccursIn(Fold(s, fold), Fold(row[f].value, fold))
  }

  lemma {:induction false} AnyFieldFinds(row: Row, fields: seq<string>, s: string, fold: char -> char)
    requires Caseless(fold)
    ensures AnyField(row, fields, "%" + Escape(s) + "%", fold) == Some(Found(row, fields, s, fold))
  {
    if fields != [] {
      AnyFieldFinds(row, fields[1..], s, fold);
      if fields[0] in row && row[fields[0]].Some? {
        SearchIsLiteral(s, row[fields[0]].value, fold);
      }
      assert Found(row, fields[1..], s, fold) ==> Found(row, fields, s, fold);
    }
  }

  /** A search never fails and keeps exactly the rows in which a searched column holds the text; when there is nothing
      to search for, or nothing to search in, it keeps them all. */
  lemma SearchKeepsMatches(row: Row, fields: seq<string>, search: Option<string>, fold: char -> char)
    requires Caseless(fold)
    ensures Keeps(row, fields, search, fold).Some?
    ensures Keeps(row, fields, search, fold).value <==>
      search.None? || search.value == "" || (forall f :: f in fields ==> f !in row)
      || Found(row, fields, search.value, fold)
  {
    if search.Some? {
      AnyFieldFinds(row, fields, search.value, fold);
    }
  }
}
