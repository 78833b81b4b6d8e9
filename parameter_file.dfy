/**
 * parseParameterFile (parametersystem.cpp): reads `key=value` lines into the
 * registry's tree.
 *
 * The file is given by its lines (what std::getline returns for it, in
 * order; a file that cannot be opened has none). Every line of the source
 * that checks the syntax constructs a std::runtime_error without throwing
 * it, so a line such as `Key value` is accepted. The parser below takes a
 * `strict` flag: false is the code as written, true throws those errors.
 */
module ParameterFile {
  import opened Outcomes
  import opened Chars
  import opened KeyCodec
  import opened ParamTree
  import opened Registry

  /** The errorPrefix of line n (counted from 1) of a file. */
  function LinePrefix(fileName: string, n: nat): string
  {
    fileName + ":" + NatToString(n) + ": "
  }

  predicate IsCommentStart(c: char) { c == '#' || c == ';' }

  /** An empty text or one starting a comment, once leading whitespace is gone. */
  predicate Ignored(s: string)
  {
    s == [] || IsCommentStart(s[0])
  }

  /** One line: ignored, a key transformKey rejects, or a canonical key with its value (or the value's failure). */
  datatype Line = Skipped | BadKey(error: Error) | Keyed(name: string, value: Outcome<string>)

  /** A parsed value and what follows it; the strict parser allows only whitespace and a comment there. */
  function Trailing(value: string, after: string, prefix: string, strict: bool): Outcome<string>
  {
    if strict && !Ignored(StripLeadingSpace(after)) then Thrown(SyntaxError(prefix)) else Ok(value)
  }

  /**
   * The value of a line, from the text after its key. As written, the
   * character after the key's trailing whitespace is dropped whatever it is
   * (`substr(1)`, out of range when nothing is left).
   */
  function ValueOf(rest: string, prefix: string, strict: bool): Outcome<string>
  {
    var r := StripLeadingSpace(rest);
    if strict && (r == [] || r[0] != '=') then Thrown(SyntaxError(prefix))
    else if r == [] then Thrown(OutOfRange)
    else ValueText(StripLeadingSpace(r[1..]), prefix, strict)
  }

  /**
   * The value from what follows the '=' and its whitespace: quoted or up to
   * the next whitespace. As written, neither an empty value nor text after
   * the value is an error.
   */
  function ValueText(t: string, prefix: string, strict: bool): Outcome<string>
  {
    if strict && Ignored(t) then Thrown(SyntaxError(prefix))
    else if t != [] && t[0] == '"' then
      match QuotedValue(t, prefix)
      case Thrown(e) => Thrown(e)
      case Ok(q) => Trailing(q.0, q.1, prefix, strict)
    else
      var u := SplitAt(t, IsSpace);
      Trailing(u.0, u.1, prefix, strict)
  }

  /** What one line of the file holds. */
  function ParseLine(line: string, prefix: string, strict: bool): Line
  {
    var s := StripLeadingSpace(line);
    if Ignored(s) then Skipped
    else
      var split := SplitAt(s, IsKeyStop);
      match CanonicalKey(split.0, true, prefix)
      case Thrown(e) => BadKey(e)
      case Ok(name) => Keyed(name, ValueOf(split.1, prefix, strict))
  }

  /**
   * What the loop does with a line, given the keys seen earlier in the file:
   * nothing, the key and value to store, or the exception. A repeated key is
   * reported before anything is wrong with its value.
   */
  function LineStep(line: Line, prefix: string, seen: set<string>): Outcome<Option<(string, string)>>
  {
    match line
    case Skipped => Ok(None)
    case BadKey(e) => Thrown(e)
    case Keyed(name, value) =>
      if name in seen then Thrown(DuplicateInFile(prefix, name))
      else if value.Thrown? then Thrown(value.error)
      else Ok(Some((name, value.value)))
  }

  /** A value from the file is stored only when overwriting or when the tree does not hold the key yet. */
  function Store(tree: Tree, name: string, value: string, overwrite: bool): Tree
  {
    if overwrite || !HasKey(tree, name) then Set(tree, name, value) else tree
  }

  /** The outcome of reading a file and the tree as left, values of the lines before a failure included. */
  datatype FileResult = FileResult(result: Outcome<()>, tree: Tree)

  /** The loop from line index n on. */
  function ParseFrom(fileName: string, lines: seq<string>, n: nat, overwrite: bool, strict: bool, tree: Tree, seen: set<string>): FileResult
    decreases |lines| - n
  {
    if n >= |lines| then FileResult(Ok(()), tree)
    else
      var prefix := LinePrefix(fileName, n + 1);
      match LineStep(ParseLine(lines[n], prefix, strict), prefix, seen)
      case Thrown(e) => FileResult(Thrown(e), tree)
      case Ok(None) => ParseFrom(fileName, lines, n + 1, overwrite, strict, tree, seen)
      case Ok(Some(kv)) => ParseFrom(fileName, lines, n + 1, overwrite, strict, Store(tree, kv.0, kv.1, overwrite), seen + {kv.0})
  }

  function ParseFile(fileName: string, lines: seq<string>, overwrite: bool, strict: bool, tree: Tree): FileResult
  {
    ParseFrom(fileName, lines, 0, overwrite, strict, tree, {})
  }

  /** The part of the source's loop body after the duplicate check: the value from the text after the key. */
  method ReadValue(rest: string, prefix: string, strict: bool) returns (value: Outcome<string>)
    ensures value == ValueOf(rest, prefix, strict)
  {
    var cur := RemoveLeadingSpace(rest);
    if strict && (cur == [] || cur[0] != '=') {
      return Thrown(SyntaxError(prefix));
    }
    if cur == [] {
      return Thrown(OutOfRange);
    }
    cur := cur[1..];
    cur := RemoveLeadingSpace(cur);
    if strict && (cur == [] || cur[0] == '#' || cur[0] == ';') {
      return Thrown(SyntaxError(prefix));
    }
    var v;
    if cur != [] && cur[0] == '"' {
      var quoted := ParseQuotedValue(cur, prefix);
      if quoted.Thrown? {
        return Thrown(quoted.error);
      }
      v, cur := quoted.value.0, quoted.value.1;
    } else {
      v, cur := ParseUnquotedValue(cur);
    }
    cur := RemoveLeadingSpace(cur);
    if strict && cur != [] && cur[0] != '#' && cur[0] != ';' {
      return Thrown(SyntaxError(prefix));
    }
    return Ok(v);
  }

  /** The key of a line and the text after it, as parseKey and transformKey make them. */
  method ReadKey(line: string, prefix: string) returns (canonical: Outcome<string>, rest: string)
    ensures canonical == CanonicalKey(SplitAt(line, IsKeyStop).0, true, prefix)
    ensures rest == SplitAt(line, IsKeyStop).1
  {
    var key;
    key, rest := ParseKey(line);
    canonical := TransformKey(key, true, prefix);
  }

  /** The body of the source's loop for one line, up to the write into the tree. */
  method ProcessLine(line: string, prefix: string, strict: bool, seen: set<string>) returns (step: Outcome<Option<(string, string)>>)
    ensures step == LineStep(ParseLine(line, prefix, strict), prefix, seen)
  {
    var cur := RemoveLeadingSpace(line);
    if cur == [] || cur[0] == '#' || cur[0] == ';' {
      assert ParseLine(line, prefix, strict) == Skipped;
      return Ok(None);
    }
    var canonical, rest := ReadKey(cur, prefix);
    if canonical.Thrown? {
      assert ParseLine(line, prefix, strict) == BadKey(canonical.error);
      return Thrown(canonical.error);
    }
    var name := canonical.value;
    assert ParseLine(line, prefix, strict) == Keyed(name, ValueOf(rest, prefix, strict));
    if name in seen {
      return Thrown(DuplicateInFile(prefix, name));
    }
    var value := ReadValue(rest, prefix, strict);
    if value.Thrown? {
      return Thrown(value.error);
    }
    return Ok(Some((name, value.value)));
  }

  /** parseParameterFile, writing into the registry's tree. */
  method ParseParameterFile(ps: ParameterSystem, fileName: string, lines: seq<string>, overwrite: bool, strict: bool)
    returns (r: Outcome<()>)
    modifies ps`tree
    ensures FileResult(r, ps.tree) == ParseFile(fileName, lines, overwrite, strict, old(ps.tree))
  {
    var seen: set<string> := {};
    var n := 0;
    while n < |lines|
      invariant 0 <= n <= |lines|
      invariant ParseFrom(fileName, lines, n, overwrite, strict, ps.tree, seen) == ParseFile(fileName, lines, overwrite, strict, old(ps.tree))
      decreases |lines| - n
    {
      var prefix := LinePrefix(fileName, n + 1);
      var step := ProcessLine(lines[n], prefix, strict, seen);
      if step.Thrown? {
        return Thrown(step.error);
      }
      if step.value.Some? {
        var name, value := step.value.value.0, step.value.value.1;
        seen := seen + {name};
        if overwrite || !HasKey(ps.tree, name) {
          ps.tree := Set(ps.tree, name, value);
        }
      }
      n := n + 1;
    }
    return Ok(());
  }

  // Properties of files.

  /** A file of blank and comment lines succeeds and leaves the tree alone. */
  lemma {:induction false} CommentsOnlyChangeNothing(fileName: string, lines: seq<string>, n: nat, overwrite: bool, strict: bool, tree: Tree, seen: set<string>)
    requires forall k :: n <= k < |lines| ==> Ignored(StripLeadingSpace(lines[k]))
    ensures ParseFrom(fileName, lines, n, overwrite, strict, tree, seen) == FileResult(Ok(()), tree)
    decreases |lines| - n
  {
    if n < |lines| {
      CommentsOnlyChangeNothing(fileName, lines, n + 1, overwrite, strict, tree, seen);
    }
  }

  /** A stored value reads back unless an existing one is kept; no other key changes. */
  lemma StoreRule(tree: Tree, name: string, value: string, overwrite: bool, other: string)
    ensures Lookup(Store(tree, name, value, overwrite), name)
      == if overwrite || !HasKey(tree, name) then Some(value) else Lookup(tree, name)
    ensures other != name ==> Lookup(Store(tree, name, value, overwrite), other) == Lookup(tree, other)
  {
    SetThenLookup(tree, name, value, other);
  }

  /** A line with a new key and a good value is stored by the overwrite rule, and its key is marked as seen. */
  lemma LineStored(fileName: string, lines: seq<string>, n: nat, overwrite: bool, strict: bool, tree: Tree, seen: set<string>, name: string, value: string)
    requires n < |lines| && ParseLine(lines[n], LinePrefix(fileName, n + 1), strict) == Keyed(name, Ok(value)) && name !in seen
    ensures ParseFrom(fileName, lines, n, overwrite, strict, tree, seen)
      == ParseFrom(fileName, lines, n + 1, overwrite, strict, Store(tree, name, value, overwrite), seen + {name})
  {
  }

  /** A key seen before in the same file is an error naming the line and the key, whatever its value. */
  lemma DuplicateKey(fileName: string, lines: seq<string>, n: nat, overwrite: bool, strict: bool, tree: Tree, seen: set<string>)
    requires n < |lines|
    requires var line := ParseLine(lines[n], LinePrefix(fileName, n + 1), strict); line.Keyed? && line.name in seen
    ensures ParseFrom(fileName, lines, n, overwrite, strict, tree, seen)
      == FileResult(Thrown(DuplicateInFile(LinePrefix(fileName, n + 1), ParseLine(lines[n], LinePrefix(fileName, n + 1), strict).name)), tree)
  {
  }

  /** Two lines with the same canonical key: the first is stored, the second throws. */
  lemma SameKeyTwice(fileName: string, lines: seq<string>, overwrite: bool, strict: bool, tree: Tree, name: string, value: string)
    requires |lines| == 2 && ParseLine(lines[0], LinePrefix(fileName, 1), strict) == Keyed(name, Ok(value))
    requires var line := ParseLine(lines[1], LinePrefix(fileName, 2), strict); line.Keyed? && line.name == name
    ensures ParseFile(fileName, lines, overwrite, strict, tree)
      == FileResult(Thrown(DuplicateInFile(LinePrefix(fileName, 2), name)), Store(tree, name, value, overwrite))
  {
    LineStored(fileName, lines, 0, overwrite, strict, tree, {}, name, value);
    DuplicateKey(fileName, lines, 1, overwrite, strict, Store(tree, name, value, overwrite), {name});
  }

  // Properties of lines.

  predicate AllSpace(s: string)
  {
    forall k :: 0 <= k < |s| ==> IsSpace(s[k])
  }

  /** A value written without quotes: no whitespace, no quote, and not the start of a comment. */
  predicate PlainValue(v: string)
  {
    v != [] && !IsCommentStart(v[0]) && forall k :: 0 <= k < |v| ==> !IsSpace(v[k]) && v[k] != '"'
  }

  lemma StripSpaces(space: string, s: string)
    requires AllSpace(space) && (s == [] || !IsSpace(s[0]))
    ensures StripLeadingSpace(space + s) == s
  {
    SplitAtUnique(space + s, IsNotSpace, space, s);
  }

  /** How parseKey splits a line that starts with a well-formed key and goes on with whitespace or '='. */
  lemma KeyThen(key: string, rest: string)
    requires WellFormedKey(key) && (rest == [] || IsKeyStop(rest[0]))
    ensures StripLeadingSpace(key + rest) == key + rest
    ensures SplitAt(key + rest, IsKeyStop) == (key, rest)
  {
    assert (key + rest)[0] == key[0];
    StripSpaces([], key + rest);
    assert [] + (key + rest) == key + rest;
    WellFormedKeyHasNoStop(key);
    SplitAtUnique(key + rest, IsKeyStop, key, rest);
  }

  /** A line that starts with a well-formed key has its canonical name and the value of what follows. */
  lemma KeyedLine(key: string, rest: string, prefix: string, strict: bool)
    requires WellFormedKey(key) && (rest == [] || IsKeyStop(rest[0]))
    ensures ParseLine(key + rest, prefix, strict) == Keyed(NameOf(key), ValueOf(rest, prefix, strict))
  {
    KeyThen(key, rest);
    assert (key + rest)[0] == key[0];
  }

  lemma ValueAfterEquals(space: string, after: string, prefix: string, strict: bool)
    requires AllSpace(space)
    ensures ValueOf(space + "=" + after, prefix, strict) == ValueText(StripLeadingSpace(after), prefix, strict)
  {
    StripSpaces(space, "=" + after);
    assert space + ("=" + after) == space + "=" + after;
    assert ("=" + after)[1..] == after;
  }

  lemma PlainText(v: string, space: string, comment: string, prefix: string, strict: bool)
    requires PlainValue(v) && AllSpace(space) && (comment == [] || (space != [] && IsCommentStart(comment[0])))
    ensures ValueText(v + space + comment, prefix, strict) == Ok(v)
  {
    var t := v + (space + comment);
    assert t == v + space + comment;
    assert t[0] == v[0];
    assert space + comment == [] || IsSpace((space + comment)[0]);
    SplitAtUnique(t, IsSpace, v, space + comment);
    StripSpaces(space, comment);
  }

  lemma QuotedText(v: string, after: string, prefix: string, strict: bool)
    requires Ignored(StripLeadingSpace(after))
    ensures ValueText("\"" + Escape(v) + "\"" + after, prefix, strict) == Ok(v)
  {
    QuotedRoundTrip(v, after, prefix);
  }

  /** A well-formed key, '=' with optional whitespace around it, and a text the value parser reads as v. */
  lemma Assignment(key: string, s1: string, s2: string, value: string, v: string, prefix: string, strict: bool)
    requires WellFormedKey(key) && AllSpace(s1) && AllSpace(s2) && (value == [] || !IsSpace(value[0]))
    requires ValueText(value, prefix, strict) == Ok(v)
    ensures ParseLine(key + s1 + "=" + s2 + value, prefix, strict) == Keyed(NameOf(key), Ok(v))
  {
    var after := s2 + value;
    var rest := s1 + "=" + after;
    assert key + s1 + "=" + s2 + value == key + rest;
    assert rest[0] == if s1 == [] then '=' else s1[0];
    KeyedLine(key, rest, prefix, strict);
    ValueAfterEquals(s1, after, prefix, strict);
    StripSpaces(s2, value);
  }

  /** An unquoted value, then whitespace and an optional comment, is read in either mode. */
  lemma PlainAssignment(key: string, s1: string, s2: string, v: string, s3: string, comment: string, prefix: string, strict: bool)
    requires WellFormedKey(key) && AllSpace(s1) && AllSpace(s2) && AllSpace(s3) && PlainValue(v)
    requires comment == [] || (s3 != [] && IsCommentStart(comment[0]))
    ensures ParseLine(key + s1 + "=" + s2 + (v + s3 + comment), prefix, strict) == Keyed(NameOf(key), Ok(v))
  {
    var value := v + s3 + comment;
    assert value[0] == v[0];
    PlainText(v, s3, comment, prefix, strict);
    Assignment(key, s1, s2, value, v, prefix, strict);
  }

  /** A quoted value, then whitespace and an optional comment, is read in either mode; any text can be written so. */
  lemma QuotedAssignment(key: string, s1: string, s2: string, v: string, s3: string, comment: string, prefix: string, strict: bool)
    requires WellFormedKey(key) && AllSpace(s1) && AllSpace(s2) && AllSpace(s3)
    requires comment == [] || IsCommentStart(comment[0])
    ensures ParseLine(key + s1 + "=" + s2 + ("\"" + Escape(v) + "\"" + s3 + comment), prefix, strict) == Keyed(NameOf(key), Ok(v))
  {
    var value := "\"" + Escape(v) + "\"" + s3 + comment;
    assert value == "\"" + Escape(v) + "\"" + (s3 + comment);
    assert value[0] == '"';
    StripSpaces(s3, comment);
    QuotedText(v, s3 + comment, prefix, strict);
    Assignment(key, s1, s2, value, v, prefix, strict);
  }

  /** The strict parser accepts no more than the parser as written, and reads the same value where it accepts. */
  lemma StrictOnlyRejects(line: string, prefix: string)
    ensures var strict := ParseLine(line, prefix, true);
      strict.Keyed? && strict.value.Ok? ==> ParseLine(line, prefix, false) == strict
    ensures ParseLine(line, prefix, true).Skipped? <==> ParseLine(line, prefix, false).Skipped?
  {
  }

  /** In strict mode a value is read only after '=' and only when it is not missing or a comment. */
  lemma StrictValueShape(rest: string, prefix: string)
    ensures ValueOf(rest, prefix, true).Ok? ==>
      var r := StripLeadingSpace(rest); r != [] && r[0] == '=' && !Ignored(StripLeadingSpace(r[1..]))
  {
  }

  lemma UnseparatedValue(v: string, prefix: string)
    requires PlainValue(v) && v[0] != '='
    ensures ValueOf(" " + v, prefix, false) == Ok(v[1..])
    ensures ValueOf(" " + v, prefix, true) == Thrown(SyntaxError(prefix))
  {
    StripSpaces(" ", v);
    StripSpaces([], v[1..]);
    assert [] + v[1..] == v[1..];
    SplitAtUnique(v[1..], IsSpace, v[1..], []);
    assert v[1..] + [] == v[1..];
  }

  /** As written, `Key value` loses the value's first character; the strict parser reports it. */
  lemma MissingEqualsDropsCharacter(key: string, v: string, prefix: string)
    requires WellFormedKey(key) && PlainValue(v) && v[0] != '='
    ensures ParseLine(key + (" " + v), prefix, false) == Keyed(NameOf(key), Ok(v[1..]))
    ensures ParseLine(key + (" " + v), prefix, true) == Keyed(NameOf(key), Thrown(SyntaxError(prefix)))
  {
    KeyedLine(key, " " + v, prefix, false);
    KeyedLine(key, " " + v, prefix, true);
    UnseparatedValue(v, prefix);
  }

  /** As written, a key alone on its line makes substr throw std::out_of_range. */
  lemma KeyAlone(key: string, prefix: string)
    requires WellFormedKey(key)
    ensures ParseLine(key, prefix, false) == Keyed(NameOf(key), Thrown(OutOfRange))
    ensures ParseLine(key, prefix, true) == Keyed(NameOf(key), Thrown(SyntaxError(prefix)))
  {
    KeyedLine(key, [], prefix, false);
    KeyedLine(key, [], prefix, true);
    assert key + [] == key;
  }

  /** As written, `Key=` stores the empty text. */
  lemma EmptyValue(key: string, prefix: string)
    requires WellFormedKey(key)
    ensures ParseLine(key + "=", prefix, false) == Keyed(NameOf(key), Ok(""))
    ensures ParseLine(key + "=", prefix, true) == Keyed(NameOf(key), Thrown(SyntaxError(prefix)))
  {
    KeyedLine(key, "=", prefix, false);
    KeyedLine(key, "=", prefix, true);
    ValueAfterEquals([], [], prefix, false);
    ValueAfterEquals([], [], prefix, true);
    assert [] + "=" + [] == "=";
  }

  lemma CommentValue(comment: string, prefix: string)
    requires comment != [] && IsCommentStart(comment[0])
    ensures ValueOf("=" + comment, prefix, false) == Ok(SplitAt(comment, IsSpace).0)
    ensures ValueOf("=" + comment, prefix, true) == Thrown(SyntaxError(prefix))
  {
    StripSpaces([], "=" + comment);
    assert [] + ("=" + comment) == "=" + comment;
    assert ("=" + comment)[1..] == comment;
    StripSpaces([], comment);
    assert [] + comment == comment;
  }

  /** As written, a comment where the value belongs is stored as the value, up to its first space. */
  lemma CommentAsValue(key: string, comment: string, prefix: string)
    requires WellFormedKey(key) && comment != [] && IsCommentStart(comment[0])
    ensures ParseLine(key + ("=" + comment), prefix, false) == Keyed(NameOf(key), Ok(SplitAt(comment, IsSpace).0))
    ensures ParseLine(key + ("=" + comment), prefix, true) == Keyed(NameOf(key), Thrown(SyntaxError(prefix)))
  {
    KeyedLine(key, "=" + comment, prefix, false);
    KeyedLine(key, "=" + comment, prefix, true);
    CommentValue(comment, prefix);
  }

  lemma TrailingValue(v: string, w: string, prefix: string)
    requires PlainValue(v) && PlainValue(w)
    ensures ValueOf("=" + (v + (" " + w)), prefix, false) == Ok(v)
    ensures ValueOf("=" + (v + (" " + w)), prefix, true) == Thrown(SyntaxError(prefix))
  {
    var after := " " + w;
    var t := v + after;
    StripSpaces([], "=" + t);
    assert [] + ("=" + t) == "=" + t;
    assert ("=" + t)[1..] == t;
    assert t[0] == v[0];
    StripSpaces([], t);
    assert [] + t == t;
    SplitAtUnique(t, IsSpace, v, after);
    StripSpaces(" ", w);
  }

  /** As written, text after the value that is not a comment is ignored. */
  lemma TrailingTextIgnored(key: string, v: string, w: string, prefix: string)
    requires WellFormedKey(key) && PlainValue(v) && PlainValue(w)
    ensures ParseLine(key + ("=" + (v + (" " + w))), prefix, false) == Keyed(NameOf(key), Ok(v))
    ensures ParseLine(key + ("=" + (v + (" " + w))), prefix, true) == Keyed(NameOf(key), Thrown(SyntaxError(prefix)))
  {
    KeyedLine(key, "=" + (v + (" " + w)), prefix, false);
    KeyedLine(key, "=" + (v + (" " + w)), prefix, true);
    TrailingValue(v, w, prefix);
  }
}
