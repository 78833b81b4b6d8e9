/**
 * ASCII character classes as the C library's <cctype> functions define them
 * in the "C" locale, decimal rendering of counters, and the byte-wise order
 * in which `std::map<std::string, ...>` keeps its keys.
 */
module Chars {

  /** std::isspace: blank, tab, newline, vertical tab, form feed, carriage return. */
  predicate IsSpace(c: char)
  {
    c == ' ' || c == '\t' || c == '\n' || c == '\U{0B}' || c == '\U{0C}' || c == '\r'
  }

  predicate IsUpper(c: char) { 'A' <= c <= 'Z' }

  predicate IsLower(c: char) { 'a' <= c <= 'z' }

  predicate IsDigit(c: char) { '0' <= c <= '9' }

  /** std::isalpha */
  predicate IsAlpha(c: char) { IsUpper(c) || IsLower(c) }

  /** std::isalnum */
  predicate IsAlnum(c: char) { IsAlpha(c) || IsDigit(c) }

  /** std::toupper */
  function ToUpper(c: char): (r: char)
    ensures IsLower(c) ==> IsUpper(r) && ToLower(r) == c
    ensures !IsLower(c) ==> r == c
  {
    if IsLower(c) then (c as int - 32) as char else c
  }

  /** std::tolower */
  function ToLower(c: char): (r: char)
    ensures IsUpper(c) ==> IsLower(r) && (r as int - 32) as char == c
    ensures !IsUpper(c) ==> r == c
  {
    if IsUpper(c) then (c as int + 32) as char else c
  }

  /** The decimal digits of n, as `operator<<` and `std::to_string` print an unsigned count. */
  function NatToString(n: nat): (r: string)
    ensures |r| > 0
    ensures forall k :: 0 <= k < |r| ==> IsDigit(r[k])
    ensures n == DecimalValue(r)
  {
    if n < 10 then [('0' as int + n) as char]
    else
      var d := NatToString(n / 10);
      var r' := d + [('0' as int + n % 10) as char];
      assert r'[..|r'| - 1] == d;
      r'
  }

  /** The number a string of decimal digits denotes. */
  function DecimalValue(s: string): nat
    requires forall k :: 0 <= k < |s| ==> IsDigit(s[k])
  {
    if s == [] then 0
    else
      assert IsDigit(s[|s| - 1]);
      10 * DecimalValue(s[..|s| - 1]) + (s[|s| - 1] as int - '0' as int)
  }

  /**
   * The order of std::string's operator< for text whose characters fit in one
   * byte: the first differing character decides, and a proper prefix comes first.
   */
  predicate Less(a: string, b: string)
  {
    if a == [] then b != []
    else if b == [] then false
    else if a[0] != b[0] then a[0] < b[0]
    else Less(a[1..], b[1..])
  }

  lemma {:induction false} LessIrreflexive(a: string)
    ensures !Less(a, a)
  {
    if a != [] { LessIrreflexive(a[1..]); }
  }

  lemma {:induction false} LessTransitive(a: string, b: string, c: string)
    requires Less(a, b) && Less(b, c)
    ensures Less(a, c)
  {
    if a != [] && b != [] && c != [] && a[0] == b[0] && b[0] == c[0] {
      LessTransitive(a[1..], b[1..], c[1..]);
    }
  }

  lemma {:induction false} LessTotal(a: string, b: string)
    ensures a == b || Less(a, b) || Less(b, a)
  {
    if a != [] && b != [] && a[0] == b[0] {
      LessTotal(a[1..], b[1..]);
      if a[1..] == b[1..] {
        assert a == [a[0]] + a[1..] && b == [b[0]] + b[1..];
      }
    }
  }

  /** x is the first element of s in string order. */
  predicate IsLeast(s: set<string>, x: string)
  {
    x in s && forall y :: y in s && y != x ==> Less(x, y)
  }

  lemma {:induction false} LeastExists(s: set<string>)
    requires s != {}
    ensures exists x :: IsLeast(s, x)
    decreases |s|
  {
    var z :| z in s;
    if s != {z} {
      var rest := s - {z};
      LeastExists(rest);
      var m :| IsLeast(rest, m);
      LessTotal(z, m);
      if Less(z, m) {
        forall y | y in s && y != z ensures Less(z, y) {
          if y != m { LessTransitive(z, m, y); }
        }
        assert IsLeast(s, z);
      } else {
        assert IsLeast(s, m);
      }
    } else {
      assert IsLeast(s, z);
    }
  }

  lemma LeastUnique(s: set<string>, x: string, y: string)
    requires IsLeast(s, x) && IsLeast(s, y)
    ensures x == y
  {
    if x != y {
      LessTransitive(x, y, x);
      LessIrreflexive(x);
    }
  }

  /** The keys of a `std::map<std::string, ...>` in the order its iterators visit them. */
  ghost function InOrder(s: set<string>): seq<string>
    decreases |s|
  {
    if s == {} then []
    else
      assert exists x :: IsLeast(s, x) by { LeastExists(s); }
      var m :| IsLeast(s, m);
      [m] + InOrder(s - {m})
  }

  lemma InOrderFirst(s: set<string>, x: string)
    requires IsLeast(s, x)
    ensures InOrder(s) == [x] + InOrder(s - {x})
  {
    var m := InOrder(s)[0];
    assert IsLeast(s, m) && InOrder(s) == [m] + InOrder(s - {m});
    LeastUnique(s, x, m);
  }

  /** The visiting order is strictly increasing and visits exactly the keys. */
  lemma {:induction false} InOrderSorted(s: set<string>)
    ensures forall i, j :: 0 <= i < j < |InOrder(s)| ==> Less(InOrder(s)[i], InOrder(s)[j])
    ensures forall x :: x in InOrder(s) <==> x in s
    ensures |InOrder(s)| == |s|
    decreases |s|
  {
    if s != {} {
      LeastExists(s);
      var m :| IsLeast(s, m);
      InOrderFirst(s, m);
      var rest := InOrder(s - {m});
      InOrderSorted(s - {m});
      var r := InOrder(s);
      assert r == [m] + rest;
      forall i, j | 0 <= i < j < |r| ensures Less(r[i], r[j]) {
        if i == 0 {
          assert r[j] == rest[j - 1] && rest[j - 1] in s - {m};
        } else {
          assert r[i] == rest[i - 1] && r[j] == rest[j - 1];
        }
      }
    }
  }

  /** Visits the keys of a map in order by picking the least remaining key each time. */
  method SortedNames(s: set<string>) returns (names: seq<string>)
    ensures names == InOrder(s)
  {
    names := [];
    var rest := s;
    while rest != {}
      invariant names + InOrder(rest) == InOrder(s)
      decreases |rest|
    {
      LeastExists(rest);
      var x :| IsLeast(rest, x);
      InOrderFirst(rest, x);
      assert names + InOrder(rest) == (names + [x]) + InOrder(rest - {x});
      names := names + [x];
      rest := rest - {x};
    }
    assert names + [] == names;
  }
}
