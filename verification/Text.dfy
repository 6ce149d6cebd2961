/** String operations of the standard library, as far as the handlers use them. */
module Text {

  datatype Option<T> = None | Some(value: T)

  // Unicode white space.
  predicate IsSpace(c: char) {
    var n := c as int;
    || 0x9 <= n <= 0xD || n == 0x20 || n == 0x85 || n == 0xA0 || n == 0x1680 || 0x2000 <= n <= 0x200A
    || n == 0x2028 || n == 0x2029 || n == 0x202F || n == 0x205F || n == 0x3000
  }

  // Of ASCII that is the blank, and tab, line feed, vertical tab, form feed and carriage return.
  lemma AsciiSpaces(c: char)
    requires c as int < 128
    ensures IsSpace(c) <==> c in {' ', '\t', '\n', '\U{000B}', '\U{000C}', '\r'}
  {
  }

  function TrimStart(s: string): (r: string)
    ensures r == "" || !IsSpace(r[0])
    ensures |r| <= |s| && r == s[|s| - |r|..]
  {
    if s != "" && IsSpace(s[0]) then TrimStart(s[1..]) else s
  }

  function TrimEnd(s: string): (r: string)
    ensures r == "" || !IsSpace(r[|r| - 1])
    ensures |r| <= |s| && r == s[..|r|]
  {
    if s != "" && IsSpace(s[|s| - 1]) then TrimEnd(s[..|s| - 1]) else s
  }

  function Trim(s: string): string {
    TrimEnd(TrimStart(s))
  }

  // Neither end is white space.
  predicate Tight(s: string) {
    s == "" || (!IsSpace(s[0]) && !IsSpace(s[|s| - 1]))
  }

  lemma TrimTight(s: string)
    requires Tight(s)
    ensures Trim(s) == s
  {
  }

  lemma TrimAfterSpace(s: string)
    requires Tight(s)
    ensures Trim(" " + s) == s
  {
    var t := " " + s;
    assert t[0] == ' ' && t[1..] == s;
    assert Trim(t) == Trim(s) by { hide TrimEnd; }
    TrimTight(s);
  }

  predicate Spaces(s: string) {
    forall i :: 0 <= i < |s| ==> IsSpace(s[i])
  }

  lemma {:induction false} TrimStartSkips(w: string, s: string)
    requires Spaces(w)
    ensures TrimStart(w + s) == TrimStart(s)
  {
    if w == "" {
      assert w + s == s;
    } else {
      assert (w + s)[1..] == w[1..] + s;
      TrimStartSkips(w[1..], s);
    }
  }

  lemma {:induction false} TrimEndSkips(s: string, w: string)
    requires Spaces(w)
    ensures TrimEnd(s + w) == TrimEnd(s)
  {
    if w == "" {
      assert s + w == s;
    } else {
      assert (s + w)[..|s + w| - 1] == s + w[..|w| - 1];
      TrimEndSkips(s, w[..|w| - 1]);
    }
  }

  lemma TrimTightEnd(s: string, w: string)
    requires Tight(s) && Spaces(w)
    ensures TrimEnd(s + w) == s
  {
    hide Spaces;
    TrimEndSkips(s, w);
  }

  lemma TrimTightStart(s: string, w: string)
    requires s != "" && Tight(s)
    ensures TrimStart(s + w) == s + w
  {
    assert (s + w)[0] == s[0];
  }

  // White space around a tight text is what is trimmed.
  lemma TrimOf(w: string, s: string, w': string)
    requires Spaces(w) && Tight(s) && Spaces(w')
    ensures Trim(w + s + w') == s
  {
    assert w + (s + w') == w + s + w';
    assert TrimStart("") == "";
    hide TrimStart, TrimEnd, Spaces;
    TrimStartSkips(w, s + w');
    if s == "" {
      assert s + w' == w' && w' + "" == w';
      TrimStartSkips(w', "");
      assert TrimEnd("") == "" by { TrimTightEnd("", ""); }
    } else {
      TrimTightStart(s, w');
      TrimTightEnd(s, w');
    }
  }

  lemma SpacesJoined(a: string, b: string)
    requires Spaces(a) && Spaces(b)
    ensures Spaces(a + b)
  {
  }

  lemma {:induction false} TrimStartDrops(s: string, i: nat)
    requires i < |s| - |TrimStart(s)|
    ensures IsSpace(s[i])
  {
    if i > 0 {
      TrimStartDrops(s[1..], i - 1);
    }
  }

  lemma TrimStartParts(s: string) returns (w: string)
    ensures Spaces(w) && s == w + TrimStart(s)
  {
    w := s[..|s| - |TrimStart(s)|];
    forall i | 0 <= i < |w| ensures IsSpace(w[i]) {
      TrimStartDrops(s, i);
    }
    hide TrimStart;
  }

  lemma {:induction false} TrimEndParts(s: string) returns (w: string)
    ensures Spaces(w) && s == TrimEnd(s) + w
  {
    if s != "" && IsSpace(s[|s| - 1]) {
      var init, last := s[..|s| - 1], [s[|s| - 1]];
      var rest := TrimEndParts(init);
      SpacesJoined(rest, last);
      w := rest + last;
      assert TrimEnd(s) == TrimEnd(init);
      hide TrimEnd, Spaces;
      assert s == init + last;
      assert TrimEnd(s) + w == (TrimEnd(s) + rest) + last;
    } else {
      w := "";
    }
  }

  lemma TrimIsTight(s: string)
    ensures Tight(Trim(s))
  {
    var t := TrimStart(s);
    assert TrimEnd(t) == t[..|TrimEnd(t)|];
    hide TrimStart, TrimEnd;
  }

  lemma TrimParts(s: string) returns (w: string, w': string)
    ensures Spaces(w) && Spaces(w') && s == w + Trim(s) + w' && Tight(Trim(s))
  {
    hide TrimStart, TrimEnd, Spaces, Tight;
    TrimIsTight(s);
    w := TrimStartParts(s);
    w' := TrimEndParts(TrimStart(s));
    assert s == w + (Trim(s) + w');
  }

  predicate StartsWith(s: string, prefix: string) {
    |prefix| <= |s| && s[..|prefix|] == prefix
  }

  // `strip_prefix`
  function StripPrefix(s: string, prefix: string): Option<string> {
    if StartsWith(s, prefix) then Some(s[|prefix|..]) else None
  }

  lemma StripsPrefix(prefix: string, s: string)
    ensures StripPrefix(prefix + s, prefix) == Some(s)
  {
    assert (prefix + s)[..|prefix|] == prefix && (prefix + s)[|prefix|..] == s;
  }

  // `split_once(c)`: the parts before and after the first `c`.
  function SplitOnce(s: string, c: char): (r: Option<(string, string)>)
    ensures r.None? <==> c !in s
    ensures r.Some? ==> s == r.value.0 + [c] + r.value.1 && c !in r.value.0
  {
    if s == "" then None
    else if s[0] == c then Some(("", s[1..]))
    else match SplitOnce(s[1..], c)
      case None => None
      case Some((a, b)) => Some(([s[0]] + a, b))
  }

  lemma {:induction false} SplitOnceJoined(a: string, c: char, b: string)
    requires c !in a
    ensures SplitOnce(a + [c] + b, c) == Some((a, b))
  {
    var s := a + [c] + b;
    if a == "" {
      assert s[1..] == b;
    } else {
      assert s[1..] == a[1..] + [c] + b;
      SplitOnceJoined(a[1..], c, b);
      assert a == [a[0]] + a[1..];
    }
  }

  // `split(c)`: always at least one part.
  function Split(s: string, c: char): (parts: seq<string>)
    ensures parts != []
    decreases |s|
  {
    match SplitOnce(s, c)
    case None => [s]
    case Some((a, b)) => [a] + Split(b, c)
  }

  // `parts` with `sep` between neighbours.
  function Join(parts: seq<string>, sep: string): string {
    if parts == [] then "" else if |parts| == 1 then parts[0] else parts[0] + sep + Join(parts[1..], sep)
  }

  // --- decimal numbers -------------------------------------------------------

  const DIGITS := "0123456789"

  predicate IsDigit(c: char) {
    '0' <= c <= '9'
  }

  function DigitValue(c: char): (d: nat)
    requires IsDigit(c)
    ensures d < 10
  {
    (c as int) - ('0' as int)
  }

  /** `to_string` of a non-negative integer. */
  function Decimal(n: nat): (s: string)
    ensures s != "" && forall i :: 0 <= i < |s| ==> IsDigit(s[i])
    ensures |s| > 1 ==> s[0] != '0'
  {
    if n < 10 then [DIGITS[n]] else Decimal(n / 10) + [DIGITS[n % 10]]
  }

  // The number a digit string denotes.
  function Denotes(s: string): nat
    requires forall i :: 0 <= i < |s| ==> IsDigit(s[i])
  {
    if s == "" then 0 else 10 * Denotes(s[..|s| - 1]) + DigitValue(s[|s| - 1])
  }

  lemma {:induction false} DecimalDenotes(n: nat)
    ensures Denotes(Decimal(n)) == n
  {
    if n < 10 {
      assert Decimal(n)[..0] == "";
    } else {
      DecimalDenotes(n / 10);
      var s := Decimal(n);
      assert s[..|s| - 1] == Decimal(n / 10);
    }
  }

  lemma DecimalInjective(m: nat, n: nat)
    requires Decimal(m) == Decimal(n)
    ensures m == n
  {
    DecimalDenotes(m);
    DecimalDenotes(n);
  }
}
