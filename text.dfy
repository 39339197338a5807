/** The handful of Python string operations the analyzer and the reporter
    rely on: `str.split(sep)`, `str.splitlines()`, `str.strip()`,
    `str.isdigit()` with `int(...)`, `str(n)` and `sep.join(...)`, each
    restricted to ASCII. */
module Text {

  /** ASCII whitespace as Python's `str.isspace` sees it: tab, line feed,
      vertical tab, form feed, carriage return, the separators 0x1c to 0x1f,
      and space. */
  predicate IsSpace(c: char) {
    9 <= c as int <= 13 || 28 <= c as int <= 32
  }

  /** `sub` occurs in `s` starting at index `i`. */
  predicate OccursAt(sub: string, s: string, i: int) {
    0 <= i <= |s| - |sub| && s[i..i + |sub|] == sub
  }

  /** `sub` occurs somewhere in `s`. */
  ghost predicate IsInfix(sub: string, s: string) {
    exists i :: OccursAt(sub, s, i)
  }

  /** The index of the first `c` in `s`, or `|s|` when `c` does not occur. */
  function IndexOf(s: string, c: char): (i: nat)
    ensures i <= |s|
    ensures i < |s| ==> s[i] == c
    ensures forall j :: 0 <= j < i ==> s[j] != c
  {
    if s == [] then 0
    else if s[0] == c then 0
    else 1 + IndexOf(s[1..], c)
  }

  lemma IndexOfAbsent(s: string, c: char)
    requires c !in s
    ensures IndexOf(s, c) == |s|
  {
  }

  // ---------------------------------------------------------------------
  // str.split(sep) and sep.join(parts)
  // ---------------------------------------------------------------------

  /** Python's `s.split(sep)` for a one-character separator: never empty,
      and no piece contains the separator. */
  function Split(s: string, sep: char): (parts: seq<string>)
    ensures |parts| >= 1
    ensures forall k :: 0 <= k < |parts| ==> sep !in parts[k]
    decreases |s|
  {
    var i := IndexOf(s, sep);
    if i == |s| then [s]
    else
      assert sep !in s[..i];
      [s[..i]] + Split(s[i + 1..], sep)
  }

  /** Python's `sep.join(parts)`. */
  function Join(parts: seq<string>, sep: string): string {
    if parts == [] then ""
    else if |parts| == 1 then parts[0]
    else parts[0] + sep + Join(parts[1..], sep)
  }

  /** Joining the pieces of a split with the separator gives back the string. */
  lemma {:induction false} JoinSplit(s: string, sep: char)
    ensures Join(Split(s, sep), [sep]) == s
    decreases |s|
  {
    var i := IndexOf(s, sep);
    if i < |s| {
      var rest := s[i + 1..];
      JoinSplit(rest, sep);
      assert Split(s, sep) == [s[..i]] + Split(rest, sep);
      assert s == s[..i] + [sep] + rest;
    }
  }

  /** Splitting a join of separator-free pieces gives back the pieces. */
  lemma {:induction false} SplitJoin(parts: seq<string>, sep: char)
    requires |parts| >= 1
    requires forall k :: 0 <= k < |parts| ==> sep !in parts[k]
    ensures Split(Join(parts, [sep]), sep) == parts
  {
    if |parts| == 1 {
      IndexOfAbsent(parts[0], sep);
    } else {
      var rest := Join(parts[1..], [sep]);
      var s := parts[0] + [sep] + rest;
      assert Join(parts, [sep]) == s;
      var i := IndexOf(s, sep);
      assert s[|parts[0]|] == sep;
      assert i == |parts[0]|;
      assert s[..i] == parts[0];
      assert s[i + 1..] == rest;
      SplitJoin(parts[1..], sep);
      assert parts == [parts[0]] + parts[1..];
    }
  }

  /** An empty join of non-empty names is the join of no names. */
  lemma {:induction false} JoinEmpty(parts: seq<string>, sep: string)
    requires forall k :: 0 <= k < |parts| ==> parts[k] != ""
    ensures Join(parts, sep) == "" <==> parts == []
  {
    if |parts| >= 2 {
      assert |Join(parts, sep)| >= |parts[0]|;
    }
  }

  // ---------------------------------------------------------------------
  // str.splitlines()
  // ---------------------------------------------------------------------

  /** Python's `s.splitlines()` for text whose only line break is `\n`: the
      pieces between breaks, with no empty piece after a final break and no
      piece at all for empty text. */
  function Lines(s: string): (lines: seq<string>)
    ensures forall k :: 0 <= k < |lines| ==> '\n' !in lines[k]
    ensures |lines| <= |s|
    ensures lines == [] <==> s == []
    decreases |s|
  {
    if s == [] then []
    else
      var i := IndexOf(s, '\n');
      if i == |s| then [s]
      else
        assert '\n' !in s[..i];
        [s[..i]] + Lines(s[i + 1..])
  }

  /** Each line followed by a line feed: text as a command prints it. */
  function Terminated(lines: seq<string>): string {
    if lines == [] then "" else lines[0] + "\n" + Terminated(lines[1..])
  }

  /** Splitting line-feed-terminated lines gives back the lines. */
  lemma {:induction false} LinesTerminated(lines: seq<string>)
    requires forall k :: 0 <= k < |lines| ==> '\n' !in lines[k]
    ensures Lines(Terminated(lines)) == lines
  {
    if lines != [] {
      var head, rest := lines[0], Terminated(lines[1..]);
      var s := head + "\n" + rest;
      assert Terminated(lines) == s;
      var i := IndexOf(s, '\n');
      assert s[|head|] == '\n';
      assert s[..i] == head;
      assert s[i + 1..] == rest;
      LinesTerminated(lines[1..]);
      assert lines == [head] + lines[1..];
    }
  }

  /** Terminating one more line appends it and its line feed. */
  lemma {:induction false} TerminatedAppend(lines: seq<string>, line: string)
    ensures Terminated(lines + [line]) == Terminated(lines) + line + "\n"
  {
    if lines != [] {
      assert (lines + [line])[1..] == lines[1..] + [line];
      TerminatedAppend(lines[1..], line);
    }
  }

  /** For text that does not end in a line break, `splitlines` and
      `split("\n")` agree. */
  lemma {:induction false} LinesAgreeWithSplit(s: string)
    requires s != [] && s[|s| - 1] != '\n'
    ensures Lines(s) == Split(s, '\n')
    decreases |s|
  {
    var i := IndexOf(s, '\n');
    if i < |s| {
      assert i < |s| - 1;
      LinesAgreeWithSplit(s[i + 1..]);
    }
  }

  // ---------------------------------------------------------------------
  // str.strip()
  // ---------------------------------------------------------------------

  function TrimStart(s: string): (r: string)
    ensures |r| <= |s| && r == s[|s| - |r|..]
    ensures r == [] || !IsSpace(r[0])
    ensures forall k :: 0 <= k < |s| - |r| ==> IsSpace(s[k])
  {
    if s != [] && IsSpace(s[0]) then TrimStart(s[1..]) else s
  }

  function TrimEnd(s: string): (r: string)
    ensures |r| <= |s| && r == s[..|r|]
    ensures r == [] || !IsSpace(r[|r| - 1])
    ensures forall k :: |r| <= k < |s| ==> IsSpace(s[k])
  {
    if s != [] && IsSpace(s[|s| - 1]) then TrimEnd(s[..|s| - 1]) else s
  }

  /** Python's `s.strip()`: the part of `s` between its leading and its
      trailing whitespace. */
  function Strip(s: string): (r: string)
    ensures r == [] || (!IsSpace(r[0]) && !IsSpace(r[|r| - 1]))
  {
    TrimEnd(TrimStart(s))
  }

  /** What `strip` removes is whitespace, at the two ends only. */
  lemma StripRemovesOnlySpace(s: string)
    ensures exists i :: SurroundedBySpace(Strip(s), s, i)
  {
    var t := TrimStart(s);
    var r := Strip(s);
    var i := |s| - |t|;
    assert s[i..i + |r|] == r;
    assert SurroundedBySpace(r, s, i);
  }

  /** `s` is `r` at index `i`, with only whitespace before and after it. */
  predicate SurroundedBySpace(r: string, s: string, i: int) {
    && OccursAt(r, s, i)
    && (forall k :: 0 <= k < i ==> IsSpace(s[k]))
    && (forall k :: i + |r| <= k < |s| ==> IsSpace(s[k]))
  }

  /** Leading whitespace is skipped by `TrimStart`. */
  lemma {:induction false} TrimStartSpacePrefix(pre: string, s: string)
    requires forall k :: 0 <= k < |pre| ==> IsSpace(pre[k])
    ensures TrimStart(pre + s) == TrimStart(s)
  {
    if pre != [] {
      assert (pre + s)[0] == pre[0];
      assert (pre + s)[1..] == pre[1..] + s;
      TrimStartSpacePrefix(pre[1..], s);
    } else {
      assert pre + s == s;
    }
  }

  /** Trailing whitespace is dropped by `TrimEnd`. */
  lemma {:induction false} TrimEndSpaceSuffix(s: string, post: string)
    requires forall k :: 0 <= k < |post| ==> IsSpace(post[k])
    ensures TrimEnd(s + post) == TrimEnd(s)
    decreases |post|
  {
    if post != [] {
      var t := s + post;
      assert t[|t| - 1] == post[|post| - 1];
      assert t[..|t| - 1] == s + post[..|post| - 1];
      TrimEndSpaceSuffix(s, post[..|post| - 1]);
    } else {
      assert s + post == s;
    }
  }

  /** Once the start of `s` is trimmed to something non-empty, text appended
      after `s` is kept whole. */
  lemma {:induction false} TrimStartAppend(s: string, post: string)
    requires TrimStart(s) != []
    ensures TrimStart(s + post) == TrimStart(s) + post
  {
    var t := s + post;
    assert t[0] == s[0];
    if IsSpace(s[0]) {
      assert TrimStart(s) == TrimStart(s[1..]);
      assert t[1..] == s[1..] + post;
      TrimStartAppend(s[1..], post);
      assert TrimStart(t) == TrimStart(t[1..]);
    } else {
      assert TrimStart(s) == s;
      assert TrimStart(t) == t;
    }
  }

  /** Whitespace around `s` does not change what `strip` returns. */
  lemma StripPadded(pre: string, s: string, post: string)
    requires forall k :: 0 <= k < |pre| ==> IsSpace(pre[k])
    requires forall k :: 0 <= k < |post| ==> IsSpace(post[k])
    ensures Strip(pre + s + post) == Strip(s)
  {
    assert pre + s + post == pre + (s + post);
    TrimStartSpacePrefix(pre, s + post);
    if TrimStart(s) == [] {
      TrimStartSpacePrefix(s, post);
      TrimStartSpacePrefix(post, []);
      assert post + [] == post;
    } else {
      TrimStartAppend(s, post);
      TrimEndSpaceSuffix(TrimStart(s), post);
    }
  }

  /** Text that neither starts nor ends with whitespace is left unchanged. */
  lemma StripUnchanged(s: string)
    requires s == [] || (!IsSpace(s[0]) && !IsSpace(s[|s| - 1]))
    ensures Strip(s) == s
  {
  }

  lemma StripIdempotent(s: string)
    ensures Strip(Strip(s)) == Strip(s)
  {
    StripUnchanged(Strip(s));
  }

  // ---------------------------------------------------------------------
  // str.isdigit(), int(s) and str(n)
  // ---------------------------------------------------------------------

  predicate IsDigit(c: char) {
    '0' <= c <= '9'
  }

  /** Python's `s.isdigit()` for ASCII text: non-empty and all digits. */
  predicate IsDigits(s: string) {
    |s| > 0 && forall k :: 0 <= k < |s| ==> IsDigit(s[k])
  }

  function DigitValue(c: char): nat
    requires IsDigit(c)
  {
    c as int - '0' as int
  }

  function DigitChar(d: nat): char
    requires d < 10
  {
    ('0' as int + d) as char
  }

  /** Python's `int(s)` on a string of decimal digits. */
  function DecimalValue(s: string): nat
    requires forall k :: 0 <= k < |s| ==> IsDigit(s[k])
    decreases |s|
  {
    if s == [] then 0 else 10 * DecimalValue(s[..|s| - 1]) + DigitValue(s[|s| - 1])
  }

  /** Python's `str(n)` for a natural number: digits only, with no leading
      zero except for zero itself. */
  function NatToDecimal(n: nat): (s: string)
    ensures IsDigits(s)
    ensures s[0] != '0' || s == "0"
    ensures n < 10 <==> |s| == 1
    decreases n
  {
    if n < 10 then [DigitChar(n)]
    else NatToDecimal(n / 10) + [DigitChar(n % 10)]
  }

  /** `int(str(n)) == n`. */
  lemma {:induction false} DecimalOfNatToDecimal(n: nat)
    ensures DecimalValue(NatToDecimal(n)) == n
    decreases n
  {
    if n >= 10 {
      var s := NatToDecimal(n);
      assert s[..|s| - 1] == NatToDecimal(n / 10);
      DecimalOfNatToDecimal(n / 10);
    }
  }

  /** A leading zero does not change the value of a digit string. */
  lemma {:induction false} DecimalValueLeadingZero(s: string)
    requires forall k :: 0 <= k < |s| ==> IsDigit(s[k])
    ensures forall k :: 0 <= k < |"0" + s| ==> IsDigit(("0" + s)[k])
    ensures DecimalValue("0" + s) == DecimalValue(s)
    decreases |s|
  {
    var z := "0" + s;
    assert forall k :: 1 <= k < |z| ==> z[k] == s[k - 1];
    if s != [] {
      var p := s[..|s| - 1];
      assert z[..|z| - 1] == "0" + p;
      DecimalValueLeadingZero(p);
    }
  }

  /** A decimal string without a leading zero has a value of at least ten
      when it has two digits or more. */
  lemma {:induction false} DecimalValueLowerBound(s: string)
    requires IsDigits(s) && s[0] != '0'
    ensures DecimalValue(s) >= 1
    ensures |s| >= 2 ==> DecimalValue(s) >= 10
    decreases |s|
  {
    if |s| >= 2 {
      var p := s[..|s| - 1];
      assert p[0] == s[0];
      DecimalValueLowerBound(p);
    }
  }

  /** `str(int(s)) == s` for a canonical decimal string. */
  lemma {:induction false} NatToDecimalOfDecimal(s: string)
    requires IsDigits(s)
    ensures s[0] != '0' || |s| == 1 ==> NatToDecimal(DecimalValue(s)) == s
    decreases |s|
  {
    if |s| >= 2 && s[0] != '0' {
      var p := s[..|s| - 1];
      assert p[0] == s[0];
      DecimalValueLowerBound(s);
      DecimalValueLowerBound(p);
      var n := DecimalValue(s);
      assert n / 10 == DecimalValue(p);
      assert n % 10 == DigitValue(s[|s| - 1]);
      NatToDecimalOfDecimal(p);
      assert s == p + [s[|s| - 1]];
    }
  }
}
