/** The string handling the bot relies on: Python's `str.strip()`,
    `str.isdigit()`, `int()` and `str()` on decimal numbers, the `@handle`
    character check of the add flow, and the command extraction the
    Telegram library applies before dispatching a text message. */
module Text {

  datatype Option<+T> = None | Some(value: T)

  /** Python's `str(x)` (or an f-string) of an optional text: `None` prints as "None". */
  function Shown(o: Option<string>): (s: string)
    ensures o.Some? ==> s == o.value
    ensures o.None? ==> s == "None"
  {
    match o
    case Some(v) => v
    case None => "None"
  }

  /** The characters for which Python's `str.isspace()` holds; `strip()` and
      `split()` with no argument drop exactly these. */
  predicate IsSpace(c: char) {
    || c == ' '
    || ('\t' <= c <= '\r')
    || ('\U{1C}' <= c <= '\U{1F}')
    || c == '\U{85}' || c == '\U{A0}' || c == '\U{1680}'
    || ('\U{2000}' <= c <= '\U{200A}')
    || c == '\U{2028}' || c == '\U{2029}' || c == '\U{202F}' || c == '\U{205F}' || c == '\U{3000}'
  }

  /** `s.lstrip()`: `s` without its leading whitespace. */
  function StripStart(s: string): string
  {
    if s != [] && IsSpace(s[0]) then StripStart(s[1..]) else s
  }

  /** `s.rstrip()`: `s` without its trailing whitespace. */
  function StripEnd(s: string): string
  {
    if s != [] && IsSpace(s[|s| - 1]) then StripEnd(s[..|s| - 1]) else s
  }

  /** `lstrip()` keeps a suffix that does not start with whitespace and
      drops only whitespace. */
  lemma {:induction false} StripStartShape(s: string)
    ensures var r := StripStart(s);
      && |r| <= |s| && r == s[|s| - |r|..]
      && (r == [] || !IsSpace(r[0]))
      && (forall i :: 0 <= i < |s| - |r| ==> IsSpace(s[i]))
  {
    if s != [] && IsSpace(s[0]) {
      StripStartShape(s[1..]);
      var r := StripStart(s[1..]);
      forall i | 0 <= i < |s| - |r| ensures IsSpace(s[i]) {
        if i > 0 {
          assert s[i] == s[1..][i - 1];
        }
      }
    }
  }

  /** `rstrip()` keeps a prefix that does not end with whitespace and drops
      only whitespace. */
  lemma {:induction false} StripEndShape(s: string)
    ensures var r := StripEnd(s);
      && |r| <= |s| && r == s[..|r|]
      && (r == [] || !IsSpace(r[|r| - 1]))
      && (forall i :: |r| <= i < |s| ==> IsSpace(s[i]))
  {
    if s != [] && IsSpace(s[|s| - 1]) {
      var p := s[..|s| - 1];
      StripEndShape(p);
      var r := StripEnd(p);
      assert r == s[..|r|];
      forall i | |r| <= i < |s| ensures IsSpace(s[i]) {
        if i < |s| - 1 {
          assert s[i] == p[i];
        }
      }
    }
  }

  /** `s.strip()`. */
  function Strip(s: string): (r: string)
  {
    StripEnd(StripStart(s))
  }

  /** What `strip()` keeps is a contiguous piece of the input, with
      whitespace on both ends removed and nothing but whitespace dropped. */
  lemma StripShape(s: string)
    ensures var r, k := Strip(s), |s| - |StripStart(s)|;
      && 0 <= k && k + |r| <= |s|
      && r == s[k..k + |r|]
      && (r == [] || (!IsSpace(r[0]) && !IsSpace(r[|r| - 1])))
      && (forall i :: 0 <= i < k ==> IsSpace(s[i]))
      && (forall i :: k + |r| <= i < |s| ==> IsSpace(s[i]))
  {
    StripFirst(s);
    StripLast(s);
    StripPiece(s);
  }

  lemma StripLast(s: string)
    ensures Strip(s) == [] || !IsSpace(Strip(s)[|Strip(s)| - 1])
  {
    StripEndShape(StripStart(s));
  }

  lemma StripFirst(s: string)
    ensures Strip(s) == [] || !IsSpace(Strip(s)[0])
  {
    var u := StripStart(s);
    var r := StripEnd(u);
    StripStartShape(s);
    StripEndShape(u);
    if r != [] {
      assert r[0] == u[0];
    }
  }

  lemma StripPiece(s: string)
    ensures var r, k := Strip(s), |s| - |StripStart(s)|;
      && 0 <= k && k + |r| <= |s|
      && r == s[k..k + |r|]
      && (forall i :: k + |r| <= i < |s| ==> IsSpace(s[i]))
  {
    StripPieceSlice(s);
    StripPieceTrail(s);
  }

  lemma StripPieceSlice(s: string)
    ensures var r, k := Strip(s), |s| - |StripStart(s)|;
      && 0 <= k && k + |r| <= |s|
      && r == s[k..k + |r|]
  {
    var u := StripStart(s);
    var r := StripEnd(u);
    var k := |s| - |u|;
    StripStartShape(s);
    StripEndShape(u);
    assert u == s[k..];
    assert r == u[..|r|];
    forall i | 0 <= i < |r| ensures r[i] == s[k + i] {
      assert r[i] == u[i];
    }
  }

  lemma StripPieceTrail(s: string)
    ensures var r, k := Strip(s), |s| - |StripStart(s)|;
      0 <= k && forall i :: k + |r| <= i < |s| ==> IsSpace(s[i])
  {
    var u := StripStart(s);
    var r := StripEnd(u);
    var k := |s| - |u|;
    StripStartShape(s);
    StripEndShape(u);
    assert u == s[k..];
    forall i | k + |r| <= i < |s| ensures IsSpace(s[i]) {
      assert s[i] == u[i - k];
    }
  }

  /** `lstrip()` drops a run of whitespace in front of a text that does not
      start with whitespace, and nothing more. */
  lemma {:induction false} StripStartSkips(a: string, x: string)
    requires forall i :: 0 <= i < |a| ==> IsSpace(a[i])
    requires x == [] || !IsSpace(x[0])
    ensures StripStart(a + x) == x
  {
    if a == [] {
      assert a + x == x;
    } else {
      assert (a + x)[1..] == a[1..] + x;
      StripStartSkips(a[1..], x);
    }
  }

  /** `rstrip()` drops a run of whitespace after a text that does not end
      with whitespace, and nothing more. */
  lemma {:induction false} StripEndSkips(x: string, b: string)
    requires forall i :: 0 <= i < |b| ==> IsSpace(b[i])
    requires x == [] || !IsSpace(x[|x| - 1])
    ensures StripEnd(x + b) == x
  {
    if b == [] {
      assert x + b == x;
    } else {
      var b' := b[..|b| - 1];
      assert (x + b)[..|x + b| - 1] == x + b';
      StripEndSkips(x, b');
    }
  }

  /** `strip()` of a text surrounded by whitespace gives back the text, when
      the text neither starts nor ends with whitespace. */
  lemma StripSurrounded(a: string, x: string, b: string)
    requires forall i :: 0 <= i < |a| ==> IsSpace(a[i])
    requires forall i :: 0 <= i < |b| ==> IsSpace(b[i])
    requires x == [] || (!IsSpace(x[0]) && !IsSpace(x[|x| - 1]))
    ensures Strip(a + x + b) == x
  {
    assert a + x + b == a + (x + b);
    if x == [] {
      assert x + b == b;
      StripStartSkips(a + b, []);
      assert a + b + [] == a + b;
      assert forall i :: 0 <= i < |a + b| ==> IsSpace((a + b)[i]);
      StripEndSkips([], []);
    } else {
      assert (x + b)[0] == x[0];
      StripStartSkips(a, x + b);
      StripEndSkips(x, b);
    }
  }

  /** A text that neither starts nor ends with whitespace is its own `strip()`. */
  lemma StripKeeps(x: string)
    requires x == [] || (!IsSpace(x[0]) && !IsSpace(x[|x| - 1]))
    ensures Strip(x) == x
  {
    StripSurrounded([], x, []);
    assert [] + x + [] == x;
  }

  /** Stripping twice is stripping once. */
  lemma StripIdempotent(s: string)
    ensures Strip(Strip(s)) == Strip(s)
  {
    var r := Strip(s);
    StripFirst(s);
    StripLast(s);
    StripKeeps(r);
  }

  predicate IsDigit(c: char) {
    '0' <= c <= '9'
  }

  /** `str.isdigit()` on ASCII text: non-empty and every character a digit. */
  predicate IsDigits(s: string) {
    |s| > 0 && forall i :: 0 <= i < |s| ==> IsDigit(s[i])
  }

  /** `int(s)` for a string of decimal digits (leading zeros allowed). */
  function DecimalValue(s: string): nat
    requires forall i :: 0 <= i < |s| ==> IsDigit(s[i])
  {
    if s == [] then 0 else DecimalValue(s[..|s| - 1]) * 10 + DigitValue(s[|s| - 1])
  }

  function DigitValue(c: char): (d: nat)
    requires IsDigit(c)
    ensures d < 10
  {
    (c as int - '0' as int)
  }

  function DigitChar(d: nat): (c: char)
    requires d < 10
    ensures IsDigit(c) && DigitValue(c) == d
  {
    '0' + d as char
  }

  /** `str(n)` for a non-negative integer: its canonical decimal form. */
  function DecimalString(n: nat): (s: string)
    ensures IsDigits(s)
    ensures s[0] == '0' ==> s == "0"
  {
    if n < 10 then [DigitChar(n)] else DecimalString(n / 10) + [DigitChar(n % 10)]
  }

  /** `int(str(n)) == n`. */
  lemma {:induction false} DecimalRoundTrip(n: nat)
    ensures DecimalValue(DecimalString(n)) == n
  {
    var s := DecimalString(n);
    if n >= 10 {
      DecimalRoundTrip(n / 10);
      assert s[..|s| - 1] == DecimalString(n / 10);
    }
  }

  /** `str(int(s)) == s` for every digit string without a leading zero. */
  lemma {:induction false} DecimalStringOfValue(s: string)
    requires IsDigits(s)
    requires s[0] == '0' ==> s == "0"
    ensures DecimalString(DecimalValue(s)) == s
  {
    if |s| > 1 {
      var p := s[..|s| - 1];
      DecimalStringOfValue(p);
      DecimalValueAtLeastLeading(p);
      var d := DigitValue(s[|s| - 1]);
      var n := DecimalValue(s);
      assert n == DecimalValue(p) * 10 + d;
      assert n / 10 == DecimalValue(p) && n % 10 == d;
      assert s == p + [s[|s| - 1]];
    } else {
      assert s == [DigitChar(DigitValue(s[0]))];
    }
  }

  /** A digit string that does not start with '0' denotes a positive number. */
  lemma {:induction false} DecimalValueAtLeastLeading(s: string)
    requires IsDigits(s)
    requires s[0] != '0'
    ensures DecimalValue(s) >= 1
  {
    if |s| > 1 {
      DecimalValueAtLeastLeading(s[..|s| - 1]);
    }
  }

  /** The characters `write_user` accepts after the leading '@': its
      `valid_chars` lists the ASCII lower-case letters, the ASCII upper-case
      letters, the ten digits and the underscore. */
  predicate IsHandleChar(c: char) {
    ('a' <= c <= 'z') || ('A' <= c <= 'Z') || ('0' <= c <= '9') || c == '_'
  }

  /** The leading part of `s` before the first character satisfying `stop`. */
  function TakeUntil(s: string, stop: char -> bool): (r: string)
    ensures |r| <= |s| && r == s[..|r|]
    ensures forall i :: 0 <= i < |r| ==> !stop(s[i])
    ensures |r| < |s| ==> stop(s[|r|])
  {
    if s == [] || stop(s[0]) then [] else [s[0]] + TakeUntil(s[1..], stop)
  }

  /** The Telegram library's `extract_command`: for a text starting with '/',
      the first whitespace-separated word, cut at '@', without the slash
      (`"/add@bot x"` gives `"add"`); any other text is not a command. */
  function CommandOf(text: string): (r: Option<string>)
    ensures r.Some? <==> (|text| > 0 && text[0] == '/')
    ensures r.Some? ==> ['/'] + r.value <= text
    ensures r.Some? ==> forall i :: 0 <= i < |r.value| ==> !IsSpace(r.value[i]) && r.value[i] != '@'
    ensures r.Some? && 1 + |r.value| < |text| ==> IsSpace(text[1 + |r.value|]) || text[1 + |r.value|] == '@'
  {
    if |text| > 0 && text[0] == '/' then
      var word := TakeUntil(text, IsSpace);
      var name := TakeUntil(word, c => c == '@');
      assert name == text[..|name|];
      assert |name| < |word| ==> word[|name|] == '@' && text[|name|] == word[|name|];
      Some(name[1..])
    else
      None
  }
}
