/** Best-effort repair of a JSON text cut off mid-way (`fixIncompleteJSON`).

    One left-to-right pass keeps two pieces of state: whether the scan is
    inside a string, flipped by every `"` not immediately preceded by a
    backslash, and a nesting depth that `{` and `[` raise and `}` and `]`
    lower, counted only outside strings.  When the text ends inside a string
    one `"` is appended; then one `}` for each unit of positive depth, whether
    the unclosed opener was `{` or `[`. */
module JsonRepair {

  datatype ScanState = ScanState(depth: int, inString: bool)

  /** The character at index `i` is a quote that flips the in-string flag:
      one not immediately preceded by a backslash (a quote at index 0 always
      flips it). */
  predicate TogglesAt(s: string, i: nat)
    requires i < |s|
  {
    s[i] == '"' && (i == 0 || s[i - 1] != '\\')
  }

  function DepthChange(c: char): int {
    if c == '{' || c == '[' then 1 else if c == '}' || c == ']' then -1 else 0
  }

  /** One step of the scanner on character `c`; `flip` says whether `c` is a
      flipping quote.  The flag is updated first, and the depth only moves
      when the updated flag says the scan is outside a string. */
  function Next(st: ScanState, flip: bool, c: char): ScanState {
    var inString := if flip then !st.inString else st.inString;
    ScanState(if inString then st.depth else st.depth + DepthChange(c), inString)
  }

  /** The scanner's state after reading every character of `s`. */
  function Scan(s: string): ScanState {
    if s == [] then ScanState(0, false)
    else Next(Scan(s[..|s| - 1]), TogglesAt(s, |s| - 1), s[|s| - 1])
  }

  lemma ScanSnoc(s: string, c: char)
    ensures Scan(s + [c]) == Next(Scan(s), c == '"' && (|s| == 0 || s[|s| - 1] != '\\'), c)
  {
    assert (s + [c])[..|s|] == s;
  }

  function Repeat(c: char, n: nat): (r: string)
    ensures |r| == n && forall i :: 0 <= i < n ==> r[i] == c
  {
    if n == 0 then [] else Repeat(c, n - 1) + [c]
  }

  function PositivePart(d: int): nat {
    if d > 0 then d else 0
  }

  /** What the repair produces: the input, a closing quote when the scan ends
      inside a string, and one `}` per unit of positive final depth. */
  function Repaired(s: string): string {
    s + (if Scan(s).inString then "\"" else "") + Repeat('}', PositivePart(Scan(s).depth))
  }

  /** `fixIncompleteJSON`. */
  method FixIncompleteJson(str: string) returns (fixed: string)
    ensures fixed == Repaired(str)
    ensures str <= fixed
    ensures |fixed| == |str| + (if Scan(str).inString then 1 else 0) + PositivePart(Scan(str).depth)
    ensures forall i :: |str| <= i < |fixed| && fixed[i] == '"' ==> i == |str| && Scan(str).inString
    ensures forall i :: |str| <= i < |fixed| && fixed[i] != '"' ==> fixed[i] == '}'
    ensures !Scan(str).inString && Scan(str).depth <= 0 ==> fixed == str
  {
    var depth := 0;
    var inString := false;
    fixed := "";
    for i := 0 to |str|
      invariant depth == Scan(str[..i]).depth
      invariant inString == (i < |str| && Scan(str[..i]).inString)
      invariant fixed == str[..i] + (if i == |str| && Scan(str).inString then "\"" else "")
    {
      var c := str[i];
      assert str[..i + 1] == str[..i] + [c];
      ScanSnoc(str[..i], c);
      if c == '"' && (i == 0 || str[i - 1] != '\\') {
        inString := !inString;
      }
      if !inString {
        if c == '{' || c == '[' {
          depth := depth + 1;
        }
        if c == '}' || c == ']' {
          depth := depth - 1;
        }
      }
      fixed := fixed + [c];
      if inString && i == |str| - 1 {
        fixed := fixed + "\"";
        inString := false;
      }
    }
    assert str[..|str|] == str;
    ghost var base := fixed;
    ghost var finalDepth := depth;
    while depth > 0
      invariant finalDepth > 0 ==> 0 <= depth <= finalDepth
      invariant finalDepth <= 0 ==> depth == finalDepth
      invariant fixed == base + Repeat('}', PositivePart(finalDepth) - PositivePart(depth))
    {
      fixed := fixed + "}";
      depth := depth - 1;
    }
  }

  /** The number of flipping quotes in `s`. */
  function Toggles(s: string): nat {
    if s == [] then 0 else Toggles(s[..|s| - 1]) + (if TogglesAt(s, |s| - 1) then 1 else 0)
  }

  /** The scan is inside a string exactly when it has seen an odd number of
      unescaped quotes. */
  lemma {:induction false} InStringIsParity(s: string)
    ensures Scan(s).inString <==> Toggles(s) % 2 == 1
  {
    if s != [] {
      InStringIsParity(s[..|s| - 1]);
    }
  }

  /** A quote right after a backslash leaves the in-string flag alone; any
      other quote flips it. */
  lemma EscapedQuoteKeepsFlag(s: string)
    requires |s| > 0 && s[|s| - 1] == '"'
    ensures Scan(s).inString == Scan(s[..|s| - 1]).inString <==> (|s| > 1 && s[|s| - 2] == '\\')
  {
  }

  /** Text with no quote and no bracket leaves depth and flag unchanged. */
  lemma {:induction false} PlainTextKeepsState(a: string, t: string)
    requires forall j :: 0 <= j < |t| ==> t[j] !in "\"{}[]"
    ensures Scan(a + t) == Scan(a)
    decreases |t|
  {
    if t != [] {
      var t' := t[..|t| - 1];
      PlainTextKeepsState(a, t');
      assert a + t == (a + t') + [t[|t| - 1]];
      var c := t[|t| - 1];
      assert c !in "\"{}[]";
      assert c != '"' && DepthChange(c) == 0;
      ScanSnoc(a + t', c);
    } else {
      assert a + t == a;
    }
  }

  /** Brackets inside quoted text are ignored: a quoted run in which every
      quote is escaped, opened outside a string and not ending in a
      backslash, leaves depth and flag as they were before it. */
  lemma QuotedTextIgnored(a: string, t: string)
    requires !Scan(a).inString
    requires |a| == 0 || a[|a| - 1] != '\\'
    requires forall j :: 0 <= j < |t| && t[j] == '"' ==> j > 0 && t[j - 1] == '\\'
    requires |t| == 0 || t[|t| - 1] != '\\'
    ensures Scan(a + ['"'] + t + ['"']) == Scan(a)
  {
    var s := a + ['"'] + t;
    InsideQuotes(a, t, |t|);
    assert t[..|t|] == t;
    assert Scan(s) == ScanState(Scan(a).depth, true);
    if |t| == 0 {
      assert s[|s| - 1] == '"';
    } else {
      assert s[|s| - 1] == t[|t| - 1];
    }
    ScanSnoc(s, '"');
    assert Next(Scan(s), true, '"') == Scan(a);
  }

  lemma {:induction false} InsideQuotes(a: string, t: string, k: nat)
    requires !Scan(a).inString
    requires |a| == 0 || a[|a| - 1] != '\\'
    requires forall j :: 0 <= j < |t| && t[j] == '"' ==> j > 0 && t[j - 1] == '\\'
    requires k <= |t|
    ensures Scan(a + ['"'] + t[..k]) == ScanState(Scan(a).depth, true)
  {
    var open := a + ['"'];
    ScanSnoc(a, '"');
    if k == 0 {
      assert open + t[..k] == open;
    } else {
      InsideQuotes(a, t, k - 1);
      var s := open + t[..k - 1];
      assert open + t[..k] == s + [t[k - 1]];
      if k >= 2 {
        assert s[|s| - 1] == t[k - 2];
      } else {
        assert s[|s| - 1] == '"';
      }
      ScanSnoc(s, t[k - 1]);
    }
  }

  /** Appending `n` closing braces outside a string lowers the depth by `n`. */
  lemma {:induction false} ScanClosers(x: string, n: nat)
    requires !Scan(x).inString
    ensures Scan(x + Repeat('}', n)) == ScanState(Scan(x).depth - n, false)
  {
    if n == 0 {
      assert x + Repeat('}', n) == x;
    } else {
      ScanClosers(x, n - 1);
      var y := x + Repeat('}', n - 1);
      assert x + Repeat('}', n) == y + ['}'] by {
        assert Repeat('}', n) == Repeat('}', n - 1) + ['}'];
      }
      ScanSnoc(y, '}');
    }
  }

  predicate EndsWithBackslash(s: string) {
    |s| > 0 && s[|s| - 1] == '\\'
  }

  /** Rescanning the repaired text ends outside any string with the depth
      brought down to zero (or left at its non-positive value) -- unless the
      input ends inside a string with a backslash, which escapes the quote
      the repair appends. */
  lemma RepairCloses(s: string)
    requires !(Scan(s).inString && EndsWithBackslash(s))
    ensures Scan(Repaired(s)) == ScanState(if Scan(s).depth > 0 then 0 else Scan(s).depth, false)
  {
    var st := Scan(s);
    var closed := s + (if st.inString then "\"" else "");
    if st.inString {
      ScanSnoc(s, '"');
      assert Scan(closed) == ScanState(st.depth, false);
    } else {
      assert closed == s;
    }
    ScanClosers(closed, PositivePart(st.depth));
    assert Repaired(s) == closed + Repeat('}', PositivePart(st.depth));
  }

  /** The input that defeats the repair: a string cut right after a backslash
      stays open after the repair, so the reparse still fails. */
  lemma TrailingBackslashStaysOpen()
    ensures Scan(Repaired("\"\\")).inString
  {
    ScanSnoc([], '"');
    assert [] + ['"'] == "\"";
    ScanSnoc("\"", '\\');
    assert "\"" + ['\\'] == "\"\\";
    ScanSnoc("\"\\", '"');
    assert Repaired("\"\\") == "\"\\" + ['"'];
  }

  /** One step of the scan over a prefix of `s`. */
  lemma ScanPrefix(s: string, k: nat)
    requires k < |s|
    ensures Scan(s[..k + 1]) == Next(Scan(s[..k]), TogglesAt(s, k), s[k])
  {
    assert s[..k + 1][..k] == s[..k];
  }

  /** A string value ending in an escaped backslash never closes in the
      scanner's view: the closing quote follows a backslash.  So valid,
      balanced JSON such as `["\\"]` is changed by the repair. */
  lemma EscapedBackslashNeverCloses()
    ensures Scan("[\"\\\\\"]") == ScanState(1, true)
    ensures Repaired("[\"\\\\\"]") == "[\"\\\\\"]\"}"
  {
    var s := "[\"\\\\\"]";
    assert s[..0] == [];
    assert Scan(s[..1]) == ScanState(1, false) by { ScanPrefix(s, 0); }
    assert Scan(s[..2]) == ScanState(1, true) by { ScanPrefix(s, 1); }
    assert Scan(s[..3]) == ScanState(1, true) by { ScanPrefix(s, 2); }
    assert Scan(s[..4]) == ScanState(1, true) by { ScanPrefix(s, 3); }
    assert Scan(s[..5]) == ScanState(1, true) by { ScanPrefix(s, 4); }
    assert Scan(s[..6]) == ScanState(1, true) by { ScanPrefix(s, 5); }
    assert s[..6] == s;
    assert Repeat('}', 1) == "}";
  }

  /** After such a string, a response cut inside the next string is seen as
      outside any string, so the repair of `{"\\":"x` appends no closing
      quote. */
  lemma TruncatedAfterEscapedBackslash()
    ensures Scan("{\"\\\\\":\"x") == ScanState(1, false)
    ensures Repaired("{\"\\\\\":\"x") == "{\"\\\\\":\"x}"
  {
    var s := "{\"\\\\\":\"x";
    assert s[..0] == [];
    assert Scan(s[..1]) == ScanState(1, false) by { ScanPrefix(s, 0); }
    assert Scan(s[..2]) == ScanState(1, true) by { ScanPrefix(s, 1); }
    assert Scan(s[..3]) == ScanState(1, true) by { ScanPrefix(s, 2); }
    assert Scan(s[..4]) == ScanState(1, true) by { ScanPrefix(s, 3); }
    assert Scan(s[..5]) == ScanState(1, true) by { ScanPrefix(s, 4); }
    assert Scan(s[..6]) == ScanState(1, true) by { ScanPrefix(s, 5); }
    assert Scan(s[..7]) == ScanState(1, false) by { ScanPrefix(s, 6); }
    assert Scan(s[..8]) == ScanState(1, false) by { ScanPrefix(s, 7); }
    assert s[..8] == s;
    assert Repeat('}', 1) == "}";
  }

  /** Repairing twice is repairing once (under the same condition as
      `RepairCloses`): already-closed text comes back unchanged. */
  lemma RepairIdempotent(s: string)
    requires !(Scan(s).inString && EndsWithBackslash(s))
    ensures Repaired(Repaired(s)) == Repaired(s)
  {
    RepairCloses(s);
    var r := Repaired(s);
    assert Repeat('}', 0) == [];
    assert Repaired(r) == r + "" + [];
  }
}
