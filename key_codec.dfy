/**
 * The text codecs of the parameter system (parametersystem.cpp): the
 * consuming parsers parseUnquotedValue, parseKey, removeLeadingSpace and
 * parseQuotedValue, the key canonicalisation transformKey, and the
 * CamelCase to `--kebab-case` conversion that printParamUsage performs.
 *
 * The C++ parsers overwrite the caller's string with what they did not
 * consume; here each returns that remainder beside the parsed piece. Every
 * parser is a method with the source's loop, proved equal to a function
 * that specifies it; the properties are lemmas about those functions.
 */
module KeyCodec {
  import opened Outcomes
  import opened Chars

  // ---------------------------------------------------------------------------
  // Splitting at the first stop character
  // ---------------------------------------------------------------------------

  /** The longest prefix of s that holds no stop character, and the rest of s. */
  function SplitAt(s: string, stop: char -> bool): (r: (string, string))
    ensures r.0 + r.1 == s
    ensures forall k :: 0 <= k < |r.0| ==> !stop(r.0[k])
    ensures r.1 == [] || stop(r.1[0])
  {
    if s == [] then ([], [])
    else if stop(s[0]) then ([], s)
    else
      var t := SplitAt(s[1..], stop);
      ([s[0]] + t.0, t.1)
  }

  /** The three properties of SplitAt determine its result. */
  lemma {:induction false} SplitAtUnique(s: string, stop: char -> bool, a: string, b: string)
    requires a + b == s
    requires forall k :: 0 <= k < |a| ==> !stop(a[k])
    requires b == [] || stop(b[0])
    ensures SplitAt(s, stop) == (a, b)
  {
    if a == [] {
      assert b == s;
    } else {
      assert s[0] == a[0];
      assert a[1..] + b == s[1..];
      SplitAtUnique(s[1..], stop, a[1..], b);
      assert [a[0]] + a[1..] == a;
    }
  }

  predicate IsKeyStop(c: char) { IsSpace(c) || c == '=' }

  predicate IsNotSpace(c: char) { !IsSpace(c) }

  /** parseUnquotedValue: the value ends at the first whitespace character. */
  method ParseUnquotedValue(s: string) returns (value: string, rest: string)
    ensures value + rest == s
    ensures forall k :: 0 <= k < |value| ==> !IsSpace(value[k])
    ensures rest == [] || IsSpace(rest[0])
    ensures (value, rest) == SplitAt(s, IsSpace)
  {
    var i := 0;
    while i < |s| && !IsSpace(s[i])
      invariant 0 <= i <= |s|
      invariant forall k :: 0 <= k < i ==> !IsSpace(s[k])
    {
      i := i + 1;
    }
    value, rest := s[..i], s[i..];
    SplitAtUnique(s, IsSpace, value, rest);
  }

  /** parseKey: the key ends at the first whitespace character or '='. */
  method ParseKey(s: string) returns (key: string, rest: string)
    ensures key + rest == s
    ensures forall k :: 0 <= k < |key| ==> !IsSpace(key[k]) && key[k] != '='
    ensures rest == [] || IsSpace(rest[0]) || rest[0] == '='
    ensures (key, rest) == SplitAt(s, IsKeyStop)
  {
    var i := 0;
    while i < |s| && !IsKeyStop(s[i])
      invariant 0 <= i <= |s|
      invariant forall k :: 0 <= k < i ==> !IsKeyStop(s[k])
    {
      i := i + 1;
    }
    key, rest := s[..i], s[i..];
    SplitAtUnique(s, IsKeyStop, key, rest);
  }

  /** What removeLeadingSpace leaves of s. */
  function StripLeadingSpace(s: string): string
  {
    SplitAt(s, IsNotSpace).1
  }

  /** removeLeadingSpace: drops the whitespace at the front of s and nothing else. */
  method RemoveLeadingSpace(s: string) returns (r: string)
    ensures |r| <= |s| && r == s[|s| - |r|..]
    ensures forall k :: 0 <= k < |s| - |r| ==> IsSpace(s[k])
    ensures r == [] || !IsSpace(r[0])
    ensures r == StripLeadingSpace(s)
  {
    var i := 0;
    while i < |s| && IsSpace(s[i])
      invariant 0 <= i <= |s|
      invariant forall k :: 0 <= k < i ==> IsSpace(s[k])
    {
      i := i + 1;
    }
    r := s[i..];
    SplitAtUnique(s, IsNotSpace, s[..i], r);
  }

  // ---------------------------------------------------------------------------
  // Quoted values
  // ---------------------------------------------------------------------------

  /** The character that the escape sequence `\c` stands for, if there is one. */
  function EscapedChar(c: char): Option<char>
  {
    if c == 'n' then Some('\n')
    else if c == 'r' then Some('\r')
    else if c == 't' then Some('\t')
    else if c == '"' then Some('"')
    else if c == '\\' then Some('\\')
    else None
  }

  /** Puts p in front of a decoded value, passing a failure through. */
  function Prefixed(p: string, o: Outcome<(string, string)>): Outcome<(string, string)>
  {
    match o
    case Ok(vr) => Ok((p + vr.0, vr.1))
    case Thrown(e) => Thrown(e)
  }

  lemma PrefixedEmpty(o: Outcome<(string, string)>)
    ensures Prefixed([], o) == o
  {
    if o.Ok? { assert [] + o.value.0 == o.value.0; }
  }

  lemma PrefixedTwice(a: string, b: string, o: Outcome<(string, string)>)
    ensures Prefixed(a, Prefixed(b, o)) == Prefixed(a + b, o)
  {
    if o.Ok? { assert a + (b + o.value.0) == (a + b) + o.value.0; }
  }

  /**
   * The decoding of the text t that follows an opening quote: the value up to
   * the first unescaped quote, and the text after that quote. Running out of
   * text before a closing quote is the out_of_range thrown by `s.substr(i+1)`.
   */
  function Unescape(t: string, prefix: string): (r: Outcome<(string, string)>)
    ensures r.Ok? ==> |r.value.1| < |t|
    ensures r.Ok? ==> t[|t| - |r.value.1|..] == r.value.1 && t[|t| - |r.value.1| - 1] == '"'
    decreases |t|
  {
    if t == [] then Thrown(OutOfRange)
    else if t[0] == '\\' then
      if |t| == 1 then Thrown(UnexpectedEndOfQuotedString(prefix))
      else match EscapedChar(t[1])
        case None => Thrown(UnknownEscape(prefix, t[1]))
        case Some(c) => Prefixed([c], Unescape(t[2..], prefix))
    else if t[0] == '"' then Ok(([], t[1..]))
    else Prefixed([t[0]], Unescape(t[1..], prefix))
  }

  /** What parseQuotedValue returns for s: the value and the new content of s. */
  function QuotedValue(s: string, prefix: string): Outcome<(string, string)>
  {
    if s == [] || s[0] != '"' then Thrown(ExpectedQuotedString(prefix))
    else Unescape(s[1..], prefix)
  }

  /** parseQuotedValue, with the source's loop over the characters after the opening quote. */
  method ParseQuotedValue(s: string, errorPrefix: string) returns (r: Outcome<(string, string)>)
    ensures (s == [] || s[0] != '"') ==> r == Thrown(ExpectedQuotedString(errorPrefix))
    ensures r == QuotedValue(s, errorPrefix)
  {
    if s == [] || s[0] != '"' {
      return Thrown(ExpectedQuotedString(errorPrefix));
    }
    var result: string := [];
    var i := 1;
    assert Prefixed(result, Unescape(s[i..], errorPrefix)) == Unescape(s[1..], errorPrefix) by {
      PrefixedEmpty(Unescape(s[1..], errorPrefix));
    }
    while i < |s|
      invariant 1 <= i <= |s|
      invariant Prefixed(result, Unescape(s[i..], errorPrefix)) == Unescape(s[1..], errorPrefix)
    {
      ghost var t := s[i..];
      if s[i] == '\\' {
        i := i + 1;
        if |s| <= i {
          assert Unescape(t, errorPrefix) == Thrown(UnexpectedEndOfQuotedString(errorPrefix));
          return Thrown(UnexpectedEndOfQuotedString(errorPrefix));
        }
        var c: char;
        if s[i] == 'n' {
          c := '\n';
        } else if s[i] == 'r' {
          c := '\r';
        } else if s[i] == 't' {
          c := '\t';
        } else if s[i] == '"' {
          c := '"';
        } else if s[i] == '\\' {
          c := '\\';
        } else {
          assert Unescape(t, errorPrefix) == Thrown(UnknownEscape(errorPrefix, s[i]));
          return Thrown(UnknownEscape(errorPrefix, s[i]));
        }
        assert t[1] == s[i] && EscapedChar(t[1]) == Some(c);
        assert t[2..] == s[i + 1..];
        assert Unescape(t, errorPrefix) == Prefixed([c], Unescape(s[i + 1..], errorPrefix));
        PrefixedTwice(result, [c], Unescape(s[i + 1..], errorPrefix));
        result := result + [c];
      } else if s[i] == '"' {
        break;
      } else {
        assert t[1..] == s[i + 1..];
        assert Unescape(t, errorPrefix) == Prefixed([s[i]], Unescape(s[i + 1..], errorPrefix));
        PrefixedTwice(result, [s[i]], Unescape(s[i + 1..], errorPrefix));
        result := result + [s[i]];
      }
      i := i + 1;
    }
    if |s| < i + 1 {
      assert s[i..] == [];
      return Thrown(OutOfRange);
    }
    assert s[i..][1..] == s[i + 1..];
    assert Unescape(s[i..], errorPrefix) == Ok(([], s[i + 1..]));
    assert result + [] == result;
    r := Ok((result, s[i + 1..]));
  }

  /** The escaped spelling of one character inside a quoted value. */
  function EscapeChar(c: char): (r: string)
    ensures |r| == 1 ==> r == [c] && c != '\\' && c != '"'
    ensures |r| != 1 ==> |r| == 2 && r[0] == '\\' && EscapedChar(r[1]) == Some(c)
  {
    if c == '\n' then "\\n"
    else if c == '\r' then "\\r"
    else if c == '\t' then "\\t"
    else if c == '"' then "\\\""
    else if c == '\\' then "\\\\"
    else [c]
  }

  /** The text that, placed between quotes, parseQuotedValue decodes to v. */
  function Escape(v: string): string
  {
    if v == [] then [] else EscapeChar(v[0]) + Escape(v[1..])
  }

  /** Decoding an escaped character yields that character in front of the decoding of what follows. */
  lemma UnescapeStep(c: char, tail: string, prefix: string)
    ensures Unescape(EscapeChar(c) + tail, prefix) == Prefixed([c], Unescape(tail, prefix))
  {
    var t := EscapeChar(c) + tail;
    if |EscapeChar(c)| == 1 {
      assert t[0] == c && t[1..] == tail;
    } else {
      assert t[0] == '\\' && t[1] == EscapeChar(c)[1] && t[2..] == tail;
    }
  }

  /** Decoding undoes escaping, and the remainder is exactly what follows the closing quote. */
  lemma {:induction false} UnescapeEscape(v: string, rest: string, prefix: string)
    ensures Unescape(Escape(v) + ("\"" + rest), prefix) == Ok((v, rest))
  {
    var after := "\"" + rest;
    if v == [] {
      assert Escape(v) + after == after;
      assert after[0] == '"' && after[1..] == rest;
    } else {
      var tail := Escape(v[1..]) + after;
      UnescapeEscape(v[1..], rest, prefix);
      EscapeCons(v, after);
      UnescapeStep(v[0], tail, prefix);
      assert [v[0]] + v[1..] == v;
    }
  }

  lemma EscapeCons(v: string, after: string)
    requires v != []
    ensures Escape(v) + after == EscapeChar(v[0]) + (Escape(v[1..]) + after)
  {
  }

  /** Without a closing quote the decoding fails: substr runs past the end. */
  lemma {:induction false} UnterminatedQuoteFails(v: string, prefix: string)
    ensures Unescape(Escape(v), prefix) == Thrown(OutOfRange)
  {
    if v != [] {
      UnterminatedQuoteFails(v[1..], prefix);
      UnescapeStep(v[0], Escape(v[1..]), prefix);
    }
  }

  /** A quoted value round-trips through Escape. */
  lemma QuotedRoundTrip(v: string, rest: string, prefix: string)
    ensures QuotedValue("\"" + Escape(v) + "\"" + rest, prefix) == Ok((v, rest))
  {
    var s := "\"" + Escape(v) + "\"" + rest;
    assert s[1..] == Escape(v) + ("\"" + rest);
    UnescapeEscape(v, rest, prefix);
  }

  /** Exactly the escapes \n \r \t \" \\ are decoded; every other one fails. */
  lemma UnknownEscapeFails(c: char, t: string, prefix: string)
    requires c !in "nrt\"\\"
    ensures Unescape(['\\', c] + t, prefix) == Thrown(UnknownEscape(prefix, c))
  {
  }

  // ---------------------------------------------------------------------------
  // Canonical parameter names
  // ---------------------------------------------------------------------------

  function Count(s: string, c: char): nat
  {
    if s == [] then 0 else (if s[0] == c then 1 else 0) + Count(s[1..], c)
  }

  function PrefixedName(p: string, o: Option<string>): Option<string>
  {
    match o
    case Some(t) => Some(p + t)
    case None => None
  }

  /**
   * The canonical form of the characters after the first one of a key: a '-'
   * and the letter after it become that letter in upper case; every other
   * character must be alphanumeric.
   */
  function CamelTail(t: string): (r: Option<string>)
    ensures r.Some? ==> |r.value| == |t| - Count(t, '-')
    ensures r.Some? ==> forall k :: 0 <= k < |r.value| ==> IsAlnum(r.value[k])
    decreases |t|
  {
    if t == [] then Some([])
    else if t[0] == '-' then
      if |t| < 2 || !IsAlpha(t[1]) then None
      else
        assert t[1..][1..] == t[2..];
        PrefixedName([ToUpper(t[1])], CamelTail(t[2..]))
    else if !IsAlnum(t[0]) then None
    else PrefixedName([t[0]], CamelTail(t[1..]))
  }

  /** What transformKey returns for s. */
  function CanonicalKey(s: string, capitalizeFirstLetter: bool, prefix: string): (r: Outcome<string>)
    ensures r.Ok? ==> |r.value| >= 1 && |r.value| == |s| - Count(s, '-')
    ensures r.Ok? ==> '-' !in r.value
    ensures r.Ok? ==> r.value[0] == if capitalizeFirstLetter then ToUpper(s[0]) else s[0]
  {
    if s == [] then Thrown(EmptyName(prefix))
    else if !IsAlpha(s[0]) then Thrown(FirstCharNotLetter(prefix, s))
    else match CamelTail(s[1..])
      case None => Thrown(InvalidName(prefix, s))
      case Some(t) =>
        var r := [if capitalizeFirstLetter then ToUpper(s[0]) else s[0]] + t;
        assert forall k :: 1 <= k < |r| ==> r[k] == t[k - 1] && IsAlnum(r[k]);
        Ok(r)
  }

  lemma PrefixedNameEmpty(o: Option<string>)
    ensures PrefixedName([], o) == o
  {
    if o.Some? { assert [] + o.value == o.value; }
  }

  lemma PrefixedNameTwice(a: string, b: string, o: Option<string>)
    ensures PrefixedName(a, PrefixedName(b, o)) == PrefixedName(a + b, o)
  {
    if o.Some? { assert a + (b + o.value) == (a + b) + o.value; }
  }

  /** One pass of transformKey's loop: the character it appends and where it goes on, or None where it throws. */
  method KeyChar(s: string, i: nat) returns (c: Option<char>, next: nat)
    requires 1 <= i < |s|
    ensures c.None? ==> CamelTail(s[i..]) == None
    ensures c.Some? ==> i < next <= |s| && CamelTail(s[i..]) == PrefixedName([c.value], CamelTail(s[next..]))
  {
    ghost var u := s[i..];
    if s[i] == '-' {
      if |s| <= i + 1 || !IsAlpha(s[i + 1]) {
        return None, i;
      }
      assert u[1] == s[i + 1] && u[2..] == s[i + 2..];
      return Some(ToUpper(s[i + 1])), i + 2;
    } else if !IsAlnum(s[i]) {
      return None, i;
    }
    assert u[1..] == s[i + 1..];
    return Some(s[i]), i + 1;
  }

  /** transformKey, with the source's loop that may step over two characters at once. */
  method TransformKey(s: string, capitalizeFirstLetter: bool, errorPrefix: string) returns (r: Outcome<string>)
    ensures r == CanonicalKey(s, capitalizeFirstLetter, errorPrefix)
  {
    if s == [] {
      return Thrown(EmptyName(errorPrefix));
    }
    if !IsAlpha(s[0]) {
      return Thrown(FirstCharNotLetter(errorPrefix, s));
    }
    var first := if capitalizeFirstLetter then ToUpper(s[0]) else s[0];
    var result := [first];
    var i := 1;
    assert result[1..] == [];
    PrefixedNameEmpty(CamelTail(s[1..]));
    while i < |s|
      invariant 1 <= i <= |s| && |result| >= 1 && result[0] == first
      invariant CamelTail(s[1..]) == PrefixedName(result[1..], CamelTail(s[i..]))
    {
      var c, next := KeyChar(s, i);
      if c.None? {
        return Thrown(InvalidName(errorPrefix, s));
      }
      PrefixedNameTwice(result[1..], [c.value], CamelTail(s[next..]));
      assert (result + [c.value])[1..] == result[1..] + [c.value];
      result := result + [c.value];
      i := next;
    }
    assert s[i..] == [];
    assert result[1..] + [] == result[1..];
    assert result == [first] + result[1..];
    r := Ok(result);
  }

  /**
   * The condition transformKey puts on the character at index i of a key
   * (other than the first): a '-' must be followed by a letter, and any other
   * character must be alphanumeric.
   */
  predicate KeyCharOk(s: string, i: int)
    requires 0 <= i < |s|
  {
    (s[i] == '-' ==> i + 1 < |s| && IsAlpha(s[i + 1])) && (s[i] != '-' ==> IsAlnum(s[i]))
  }

  /** A non-recursive description of the keys transformKey accepts. */
  ghost predicate WellFormedKey(s: string)
  {
    |s| > 0 && IsAlpha(s[0]) && forall i :: 1 <= i < |s| ==> KeyCharOk(s, i)
  }

  ghost predicate WellFormedTail(t: string)
  {
    forall i :: 0 <= i < |t| ==> KeyCharOk(t, i)
  }

  lemma KeyCharShift(t: string, n: nat, i: int)
    requires n <= i < |t|
    ensures KeyCharOk(t, i) == KeyCharOk(t[n..], i - n)
  {
    assert t[n..][i - n] == t[i];
    if i + 1 < |t| { assert t[n..][i - n + 1] == t[i + 1]; }
  }

  /** Dropping the first n characters of a key keeps, and only moves, the per-character conditions. */
  lemma WellFormedTailDrop(t: string, n: nat)
    requires n <= |t|
    requires forall i :: 0 <= i < n ==> KeyCharOk(t, i)
    ensures WellFormedTail(t) <==> WellFormedTail(t[n..])
  {
    if WellFormedTail(t[n..]) {
      forall i | n <= i < |t| ensures KeyCharOk(t, i) { KeyCharShift(t, n, i); }
    }
    if WellFormedTail(t) {
      forall j | 0 <= j < |t[n..]| ensures KeyCharOk(t[n..], j) { KeyCharShift(t, n, j + n); }
    }
  }

  lemma {:induction false} CamelTailAccepts(t: string)
    ensures CamelTail(t).Some? <==> WellFormedTail(t)
    decreases |t|
  {
    if t == [] {
    } else if t[0] == '-' {
      if |t| >= 2 && IsAlpha(t[1]) {
        CamelTailAccepts(t[2..]);
        assert KeyCharOk(t, 0) && KeyCharOk(t, 1);
        WellFormedTailDrop(t, 2);
      } else {
        assert !KeyCharOk(t, 0);
      }
    } else if IsAlnum(t[0]) {
      CamelTailAccepts(t[1..]);
      assert KeyCharOk(t, 0);
      WellFormedTailDrop(t, 1);
    } else {
      assert !KeyCharOk(t, 0);
    }
  }

  /** transformKey succeeds exactly on the well-formed keys, whatever the capitalisation flag. */
  lemma CanonicalKeyAccepts(s: string, capitalizeFirstLetter: bool, prefix: string)
    ensures CanonicalKey(s, capitalizeFirstLetter, prefix).Ok? <==> WellFormedKey(s)
  {
    if s != [] && IsAlpha(s[0]) {
      CamelTailAccepts(s[1..]);
      if WellFormedTail(s[1..]) {
        forall i | 1 <= i < |s| ensures KeyCharOk(s, i) { KeyCharShift(s, 1, i); }
      }
      if WellFormedKey(s) {
        forall j | 0 <= j < |s[1..]| ensures KeyCharOk(s[1..], j) { KeyCharShift(s, 1, j + 1); }
      }
    }
  }

  /** The error prefix plays no part in the name transformKey returns. */
  lemma CanonicalKeyPrefix(s: string, capitalizeFirstLetter: bool, prefix: string, other: string)
    requires CanonicalKey(s, capitalizeFirstLetter, prefix).Ok?
    ensures CanonicalKey(s, capitalizeFirstLetter, other) == CanonicalKey(s, capitalizeFirstLetter, prefix)
  {
  }

  /** The canonical name of a well-formed key. */
  function NameOf(key: string): (name: string)
    requires WellFormedKey(key)
    ensures forall prefix :: CanonicalKey(key, true, prefix) == Ok(name)
  {
    assert CanonicalKey(key, true, "").Ok? by { CanonicalKeyAccepts(key, true, ""); }
    assert forall prefix :: CanonicalKey(key, true, prefix) == CanonicalKey(key, true, "") by {
      forall prefix ensures CanonicalKey(key, true, prefix) == CanonicalKey(key, true, "") {
        CanonicalKeyPrefix(key, true, "", prefix);
      }
    }
    CanonicalKey(key, true, "").value
  }

  /** A well-formed key holds neither whitespace nor '=', so parseKey takes all of it. */
  lemma WellFormedKeyHasNoStop(key: string)
    requires WellFormedKey(key)
    ensures forall k :: 0 <= k < |key| ==> !IsKeyStop(key[k])
  {
    forall k | 0 <= k < |key| ensures !IsKeyStop(key[k]) {
      if k > 0 { assert KeyCharOk(key, k); }
    }
  }

  // ---------------------------------------------------------------------------
  // CamelCase to command-line spelling
  // ---------------------------------------------------------------------------

  /** Every upper-case letter becomes '-' and its lower-case form. */
  function KebabTail(n: string): string
  {
    if n == [] then []
    else (if IsUpper(n[0]) then "-" else "") + [ToLower(n[0])] + KebabTail(n[1..])
  }

  /** The `--kebab-case` spelling printParamUsage prints for a parameter name. */
  function CommandLineName(name: string): string
  {
    "-" + KebabTail(name)
  }

  predicate AllAlnum(s: string) { forall k :: 0 <= k < |s| ==> IsAlnum(s[k]) }

  predicate NoUpper(s: string) { forall k :: 0 <= k < |s| ==> !IsUpper(s[k]) }

  lemma {:induction false} CamelTailOfKebab(m: string)
    requires AllAlnum(m)
    ensures CamelTail(KebabTail(m)) == Some(m)
  {
    if m != [] {
      CamelTailOfKebab(m[1..]);
      var rest := KebabTail(m[1..]);
      assert IsAlnum(m[0]) && AllAlnum(m[1..]);
      CamelTailOfKebabChar(m[0], rest);
      assert [m[0]] + m[1..] == m;
    }
  }

  /** One character of a name, spelled in kebab case, reads back as that character. */
  lemma CamelTailOfKebabChar(c: char, rest: string)
    requires IsAlnum(c)
    ensures CamelTail((if IsUpper(c) then "-" else "") + [ToLower(c)] + rest) == PrefixedName([c], CamelTail(rest))
  {
    if IsUpper(c) {
      var t := "-" + [ToLower(c)] + rest;
      assert t[0] == '-' && t[1] == ToLower(c) && t[2..] == rest;
    } else {
      var t := "" + [ToLower(c)] + rest;
      assert t[0] == c && t[1..] == rest;
    }
  }

  /**
   * The command-line spelling of a name made of an upper-case letter and
   * alphanumerics reads back, through transformKey, as that name:
   * UpwindWeight -> --upwind-weight -> UpwindWeight.
   */
  lemma CanonicalKeyOfCommandLineName(name: string, prefix: string)
    requires |name| > 0 && IsUpper(name[0]) && AllAlnum(name)
    ensures |CommandLineName(name)| > 2 && CommandLineName(name)[..2] == "--"
    ensures CanonicalKey(CommandLineName(name)[2..], true, prefix) == Ok(name)
  {
    var key := [ToLower(name[0])] + KebabTail(name[1..]);
    assert KebabTail(name) == "-" + key;
    assert CommandLineName(name) == "--" + key;
    assert CommandLineName(name)[2..] == key;
    assert key[1..] == KebabTail(name[1..]);
    CamelTailOfKebab(name[1..]);
    assert [name[0]] + name[1..] == name;
  }

  lemma {:induction false} KebabOfCamelTail(t: string)
    requires NoUpper(t) && CamelTail(t).Some?
    ensures KebabTail(CamelTail(t).value) == t
    decreases |t|
  {
    if t != [] {
      var m := CamelTail(t).value;
      if t[0] == '-' {
        CamelTailDash(t);
        NoUpperSuffix(t, 2);
        KebabOfCamelTail(t[2..]);
        var rest := CamelTail(t[2..]).value;
        assert !IsUpper(t[1]) && IsUpper(ToUpper(t[1])) && ToLower(ToUpper(t[1])) == t[1];
        KebabTailCons(ToUpper(t[1]), rest);
        assert KebabTail(m) == "-" + [t[1]] + t[2..];
        assert t == "-" + [t[1]] + t[2..];
      } else {
        CamelTailPlain(t);
        NoUpperSuffix(t, 1);
        KebabOfCamelTail(t[1..]);
        var rest := CamelTail(t[1..]).value;
        assert !IsUpper(t[0]) && ToLower(t[0]) == t[0];
        KebabTailCons(t[0], rest);
        assert KebabTail(m) == [t[0]] + t[1..];
        assert t == [t[0]] + t[1..];
      }
    }
  }

  /** A name that reads back from `-x...` starts with the upper-case x. */
  lemma CamelTailDash(t: string)
    requires t != [] && t[0] == '-' && CamelTail(t).Some?
    ensures |t| >= 2 && IsAlpha(t[1]) && CamelTail(t[2..]).Some?
    ensures CamelTail(t).value == [ToUpper(t[1])] + CamelTail(t[2..]).value
  {
  }

  /** A name that reads back from a key not starting with '-' starts with its first character. */
  lemma CamelTailPlain(t: string)
    requires t != [] && t[0] != '-' && CamelTail(t).Some?
    ensures IsAlnum(t[0]) && CamelTail(t[1..]).Some?
    ensures CamelTail(t).value == [t[0]] + CamelTail(t[1..]).value
  {
  }

  lemma NoUpperSuffix(t: string, n: nat)
    requires NoUpper(t) && n <= |t|
    ensures NoUpper(t[n..])
  {
    forall k | 0 <= k < |t[n..]| ensures !IsUpper(t[n..][k]) { assert t[n..][k] == t[n + k]; }
  }

  lemma KebabTailCons(c: char, m: string)
    ensures KebabTail([c] + m) == (if IsUpper(c) then "-" else "") + [ToLower(c)] + KebabTail(m)
  {
    assert ([c] + m)[1..] == m;
  }

  lemma KebabOfCanonicalKey(key: string, prefix: string)
    requires NoUpper(key) && CanonicalKey(key, true, prefix).Ok?
    ensures KebabTail(CanonicalKey(key, true, prefix).value) == "-" + [key[0]] + key[1..]
  {
    var tail := CamelTail(key[1..]).value;
    var name := [ToUpper(key[0])] + tail;
    assert CanonicalKey(key, true, prefix) == Ok(name);
    assert NoUpper(key[1..]) by {
      forall k | 0 <= k < |key[1..]| ensures !IsUpper(key[1..][k]) { assert key[1..][k] == key[k + 1]; }
    }
    KebabOfCamelTail(key[1..]);
    assert IsLower(key[0]);
    KebabTailCons(ToUpper(key[0]), tail);
  }

  /**
   * Conversely, a well-formed key without upper-case letters is the
   * command-line spelling of its canonical name.
   */
  lemma CommandLineNameOfCanonicalKey(key: string, prefix: string)
    requires NoUpper(key) && CanonicalKey(key, true, prefix).Ok?
    ensures CommandLineName(CanonicalKey(key, true, prefix).value) == "--" + key
  {
    KebabOfCanonicalKey(key, prefix);
    assert key == [key[0]] + key[1..];
  }
}
