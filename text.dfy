/** Python string operations the pipeline relies on, over `string` (a sequence of code points):
    whitespace as `str.isspace` defines it, `str.split()` with no separator, `' '.join`,
    `re.sub(r'\s+', ' ', ...)`, `str.strip()`, ASCII `str.lower()`, substring tests,
    `str.count`, and decimal rendering of integers. */
module Text {

  /** The code points for which Python's `str.isspace()` holds; `str.split()`, `str.strip()`
      and the regular-expression class `\s` all use this set. */
  predicate IsSpace(c: char)
  {
    ('\t' <= c <= '\r') || ('\U{1C}' <= c <= ' ') || c == '\U{85}' || c == '\U{A0}'
    || c == '\U{1680}' || ('\U{2000}' <= c <= '\U{200A}') || c == '\U{2028}' || c == '\U{2029}'
    || c == '\U{202F}' || c == '\U{205F}' || c == '\U{3000}'
  }

  predicate NoSpace(s: string)
  {
    forall i :: 0 <= i < |s| ==> !IsSpace(s[i])
  }

  predicate AllSpace(s: string)
  {
    forall i :: 0 <= i < |s| ==> IsSpace(s[i])
  }

  /** A token of `str.split()`: a non-empty run without whitespace. */
  predicate IsWord(w: string)
  {
    w != [] && NoSpace(w)
  }

  /** `s` without its leading whitespace run. */
  function DropSpaces(s: string): (r: string)
    ensures |r| <= |s| && r == s[|s| - |r|..]
    ensures r == [] || !IsSpace(r[0])
  {
    if s == [] || !IsSpace(s[0]) then s else DropSpaces(s[1..])
  }

  lemma {:induction false} DropSpacesDropsOnlySpace(s: string)
    ensures AllSpace(s[..|s| - |DropSpaces(s)|])
  {
    if s != [] && IsSpace(s[0]) {
      DropSpacesDropsOnlySpace(s[1..]);
      var k := |s| - |DropSpaces(s)|;
      assert s[..k] == [s[0]] + s[1..][..k - 1];
    }
  }

  /** Length of the leading non-whitespace run of `s`. */
  function WordLen(s: string): (n: nat)
    ensures n <= |s|
    ensures n < |s| ==> IsSpace(s[n])
    ensures s != [] && !IsSpace(s[0]) ==> n > 0
  {
    if s == [] || IsSpace(s[0]) then 0 else 1 + WordLen(s[1..])
  }

  lemma {:induction false} WordLenTakesWord(s: string)
    ensures NoSpace(s[..WordLen(s)])
  {
    if s != [] && !IsSpace(s[0]) {
      WordLenTakesWord(s[1..]);
      var n := WordLen(s);
      assert s[..n] == [s[0]] + s[1..][..n - 1];
    }
  }

  /** Python's `str.split()` without arguments. */
  function Split(s: string): seq<string>
    decreases |s|
  {
    var t := DropSpaces(s);
    if t == [] then [] else
      var n := WordLen(t);
      [t[..n]] + Split(t[n..])
  }

  /** Python's `sep.join(parts)`. */
  function Join(sep: string, parts: seq<string>): string
  {
    if parts == [] then [] else if |parts| == 1 then parts[0] else parts[0] + sep + Join(sep, parts[1..])
  }

  /** `' '.join(s.split())`: whitespace runs collapsed to one blank, ends trimmed. */
  function Normalize(s: string): string
  {
    Join(" ", Split(s))
  }

  /** `re.sub(r'\s+', ' ', s)`: every maximal whitespace run becomes one blank. */
  function Collapse(s: string): string
    decreases |s|
  {
    if s == [] then []
    else if IsSpace(s[0]) then " " + Collapse(DropSpaces(s))
    else
      var n := WordLen(s);
      s[..n] + Collapse(s[n..])
  }

  function StripLeft(s: string): string
  {
    DropSpaces(s)
  }

  function StripRight(s: string): (r: string)
    ensures r <= s
  {
    if s == [] || !IsSpace(s[|s| - 1]) then s else StripRight(s[..|s| - 1])
  }

  /** Python's `str.strip()` without arguments. */
  function Strip(s: string): string
  {
    StripRight(StripLeft(s))
  }

  lemma {:induction false} SplitWords(s: string)
    ensures forall w :: w in Split(s) ==> IsWord(w)
    decreases |s|
  {
    var t := DropSpaces(s);
    if t != [] {
      var n := WordLen(t);
      WordLenTakesWord(t);
      SplitWords(t[n..]);
    }
  }

  lemma DropSpacesOfWord(w: string, rest: string)
    requires IsWord(w)
    ensures DropSpaces(w + rest) == w + rest
  {
    assert (w + rest)[0] == w[0];
  }

  lemma {:induction false} WordLenOfWord(w: string, rest: string)
    requires NoSpace(w)
    requires rest == [] || IsSpace(rest[0])
    ensures WordLen(w + rest) == |w|
  {
    if w != [] {
      assert (w + rest)[1..] == w[1..] + rest;
      WordLenOfWord(w[1..], rest);
    } else {
      assert w + rest == rest;
    }
  }

  lemma SplitWordFirst(w: string, rest: string)
    requires IsWord(w)
    requires rest == [] || IsSpace(rest[0])
    ensures Split(w + rest) == [w] + Split(rest)
  {
    DropSpacesOfWord(w, rest);
    WordLenOfWord(w, rest);
    assert (w + rest)[..|w|] == w;
    assert (w + rest)[|w|..] == rest;
  }

  lemma SplitLeadingBlank(rest: string)
    ensures Split(" " + rest) == Split(rest)
  {
    BlankThenDropSpaces(rest);
    SplitSkipsSpaces(" " + rest);
    SplitSkipsSpaces(rest);
  }

  /** A word in front of a blank-joined list splits off as the first token. */
  lemma SplitJoinCons(w: string, ws: seq<string>)
    requires IsWord(w) && ws != []
    ensures Split(Join(" ", [w] + ws)) == [w] + Split(Join(" ", ws))
  {
    var rest := Join(" ", ws);
    JoinCons(w, ws);
    assert w + " " + rest == w + (" " + rest);
    SplitWordFirst(w, " " + rest);
    SplitLeadingBlank(rest);
  }

  /** Splitting a blank-joined list of words gives the words back. */
  lemma {:induction false} SplitJoin(ws: seq<string>)
    requires forall w :: w in ws ==> IsWord(w)
    ensures Split(Join(" ", ws)) == ws
  {
    if ws == [] {
      assert Join(" ", ws) == [];
    } else if |ws| == 1 {
      SplitWordFirst(ws[0], []);
      assert ws[0] + [] == ws[0];
      assert ws == [ws[0]];
    } else {
      assert ws == [ws[0]] + ws[1..];
      assert ws[0] in ws;
      SplitJoin(ws[1..]);
      SplitJoinCons(ws[0], ws[1..]);
    }
  }

  /** Normalising twice is normalising once. */
  lemma NormalizeIdempotent(s: string)
    ensures Normalize(Normalize(s)) == Normalize(s)
  {
    SplitWords(s);
    SplitJoin(Split(s));
  }

  lemma {:induction false} JoinWordsNoSpaceAtEnds(ws: seq<string>)
    requires forall w :: w in ws ==> IsWord(w)
    ensures ws != [] ==> |Join(" ", ws)| > 0 && !IsSpace(Join(" ", ws)[0])
    ensures ws != [] ==> !IsSpace(Join(" ", ws)[|Join(" ", ws)| - 1])
    ensures ws == [] <==> Join(" ", ws) == []
  {
    if |ws| == 1 {
      assert ws[0] in ws;
    } else if |ws| > 1 {
      assert ws[0] in ws;
      JoinWordsNoSpaceAtEnds(ws[1..]);
      var rest := Join(" ", ws[1..]);
      assert Join(" ", ws) == ws[0] + " " + rest;
    }
  }

  /** `Split(s)` is empty exactly when `s` holds only whitespace. */
  lemma SplitEmptyIffAllSpace(s: string)
    ensures Split(s) == [] <==> AllSpace(s)
  {
    var t := DropSpaces(s);
    assert s == s[..|s| - |t|] + t;
    DropSpacesDropsOnlySpace(s);
    if t != [] {
      assert !IsSpace(s[|s| - |t|]);
    }
  }

  /** Normalised text is empty exactly when the input holds only whitespace. */
  lemma NormalizeEmptyIffAllSpace(s: string)
    ensures Normalize(s) == [] <==> AllSpace(s)
  {
    SplitWords(s);
    JoinWordsNoSpaceAtEnds(Split(s));
    SplitEmptyIffAllSpace(s);
  }

  // ---- re.sub(r'\s+', ' ', s).strip() equals ' '.join(s.split()) ----

  function LeadBlank(s: string): string
  {
    if s != [] && IsSpace(s[0]) then " " else ""
  }

  /** One blank at the end when `s` has a word and ends in whitespace. */
  function TrailBlank(s: string): string
  {
    if Split(s) != [] && IsSpace(s[|s| - 1]) then " " else ""
  }

  lemma AllSpaceSplit(s: string)
    requires AllSpace(s)
    ensures Split(s) == []
  {
    SplitEmptyIffAllSpace(s);
  }

  lemma {:induction false} CollapseShape(s: string)
    ensures Collapse(s) == LeadBlank(s) + Normalize(s) + TrailBlank(s)
    decreases |s|, 1
  {
    if s == [] {
      assert Split(s) == [];
    } else if IsSpace(s[0]) {
      var t := DropSpaces(s);
      SplitSkipsSpaces(s);
      assert Collapse(s) == " " + Collapse(t);
      if t == [] {
        CollapseOnlyBlanks(s);
      } else {
        CollapseWordStart(t);
        CollapseBlanksThenWord(s, t);
      }
    } else {
      CollapseWordStart(s);
      assert LeadBlank(s) == "";
      calc {
        Collapse(s);
        Normalize(s) + TrailBlank(s);
        "" + Normalize(s) + TrailBlank(s);
      }
    }
  }

  lemma CollapseOnlyBlanks(s: string)
    requires s != [] && IsSpace(s[0]) && DropSpaces(s) == []
    requires Collapse(s) == " " + Collapse(DropSpaces(s))
    ensures Collapse(s) == LeadBlank(s) + Normalize(s) + TrailBlank(s)
  {
    SplitSkipsSpaces(s);
    assert Split(s) == [];
    assert Collapse(s) == " ";
  }

  lemma CollapseBlanksThenWord(s: string, t: string)
    requires s != [] && IsSpace(s[0]) && t == DropSpaces(s) && t != []
    requires Collapse(s) == " " + Collapse(t)
    requires Split(s) == Split(t)
    requires Collapse(t) == Normalize(t) + TrailBlank(t)
    ensures Collapse(s) == LeadBlank(s) + Normalize(s) + TrailBlank(s)
  {
    assert t[|t| - 1] == s[|s| - 1];
    assert TrailBlank(s) == TrailBlank(t);
    assert LeadBlank(s) == " ";
    var n, b := Normalize(t), TrailBlank(t);
    assert Normalize(s) == n;
    calc {
      Collapse(s);
      " " + (n + b);
      { Assoc(" ", n, b); }
      " " + n + b;
      LeadBlank(s) + Normalize(s) + TrailBlank(s);
    }
  }

  lemma Assoc(a: string, b: string, c: string)
    ensures a + (b + c) == a + b + c
  {
  }

  lemma SplitSkipsSpaces(s: string)
    ensures Split(s) == Split(DropSpaces(s))
  {
    var t := DropSpaces(s);
    assert DropSpaces(t) == t;
  }

  lemma {:induction false} CollapseWordStart(s: string)
    requires s != [] && !IsSpace(s[0])
    ensures Collapse(s) == Normalize(s) + TrailBlank(s)
    decreases |s|, 0
  {
    var n := WordLen(s);
    var w, rest := s[..n], s[n..];
    assert s == w + rest;
    WordLenTakesWord(s);
    SplitWordFirst(w, rest);
    assert Collapse(s) == w + Collapse(rest);
    CollapseShape(rest);
    if rest == [] {
      CollapseWordOnly(s, w);
    } else {
      CollapseWordThenRest(s, w, rest);
    }
  }

  lemma CollapseWordOnly(s: string, w: string)
    requires s == w && IsWord(w)
    requires Split(s) == [w]
    ensures w + Collapse([]) == Normalize(s) + TrailBlank(s)
  {
    assert TrailBlank(s) == "";
  }

  lemma CollapseWordThenRest(s: string, w: string, rest: string)
    requires s == w + rest && IsWord(w) && rest != [] && IsSpace(rest[0])
    requires Split(s) == [w] + Split(rest)
    requires Collapse(rest) == LeadBlank(rest) + Normalize(rest) + TrailBlank(rest)
    ensures w + Collapse(rest) == Normalize(s) + TrailBlank(s)
  {
    assert LeadBlank(rest) == " ";
    assert s[|s| - 1] == rest[|rest| - 1];
    if Split(rest) == [] {
      CollapseWordThenBlanks(s, w, rest);
    } else {
      CollapseWordThenWords(s, w, rest);
    }
  }

  lemma CollapseWordThenBlanks(s: string, w: string, rest: string)
    requires s == w + rest && IsWord(w) && rest != [] && s[|s| - 1] == rest[|rest| - 1]
    requires Split(s) == [w] + Split(rest) && Split(rest) == []
    requires Collapse(rest) == " " + Normalize(rest) + TrailBlank(rest)
    ensures w + Collapse(rest) == Normalize(s) + TrailBlank(s)
  {
    SplitEmptyIffAllSpace(rest);
    assert IsSpace(rest[|rest| - 1]);
    assert Normalize(rest) == "" && TrailBlank(rest) == "";
    assert Split(s) == [w];
    assert Normalize(s) == w;
    assert TrailBlank(s) == " ";
  }

  lemma CollapseWordThenWords(s: string, w: string, rest: string)
    requires s == w + rest && rest != [] && s[|s| - 1] == rest[|rest| - 1]
    requires Split(s) == [w] + Split(rest) && Split(rest) != []
    requires Collapse(rest) == " " + Normalize(rest) + TrailBlank(rest)
    ensures w + Collapse(rest) == Normalize(s) + TrailBlank(s)
  {
    var ws := Split(rest);
    var nr, tb := Normalize(rest), TrailBlank(rest);
    assert Normalize(s) == w + " " + nr by {
      JoinCons(w, ws);
    }
    assert TrailBlank(s) == tb;
    calc {
      w + Collapse(rest);
      w + (" " + nr + tb);
      { SeqAssoc(w, " ", nr, tb); }
      w + " " + nr + tb;
    }
  }

  lemma JoinCons(w: string, ws: seq<string>)
    requires ws != []
    ensures Join(" ", [w] + ws) == w + " " + Join(" ", ws)
  {
    assert ([w] + ws)[1..] == ws;
  }

  lemma SeqAssoc(a: string, b: string, c: string, d: string)
    ensures a + (b + c + d) == a + b + c + d
  {
  }

  lemma StripRightShape(j: string, b: string)
    requires j == [] || !IsSpace(j[|j| - 1])
    requires b == "" || b == " "
    ensures StripRight(j + b) == j
  {
    if b == " " {
      assert (j + b)[..|j + b| - 1] == j;
    }
  }

  lemma DropSpacesShape(b: string, j: string)
    requires j == [] || !IsSpace(j[0])
    requires b == "" || b == " "
    ensures DropSpaces(b + j) == j
  {
    if b == " " {
      BlankThenDropSpaces(j);
      assert DropSpaces(j) == j;
    } else {
      assert b + j == j;
    }
  }

  lemma BlankThenDropSpaces(j: string)
    ensures DropSpaces(" " + j) == DropSpaces(j)
  {
    var x := " " + j;
    assert x[0] == ' ' && IsSpace(x[0]);
    assert x[1..] == j;
  }

  /** `re.sub(r'\s+', ' ', s).strip()` is `' '.join(s.split())`. */
  lemma StripCollapseIsNormalize(s: string)
    ensures Strip(Collapse(s)) == Normalize(s)
  {
    CollapseShape(s);
    SplitWords(s);
    JoinWordsNoSpaceAtEnds(Split(s));
    var j, lead, trail := Normalize(s), LeadBlank(s), TrailBlank(s);
    if j == [] {
      assert Split(s) == [] && trail == "";
      assert Collapse(s) == lead + j + trail;
      assert Collapse(s) == lead + [];
      StripBlankOnly(lead);
    } else {
      assert Collapse(s) == lead + (j + trail) by {
        Assoc(lead, j, trail);
      }
      DropSpacesShape(lead, j + trail);
      StripRightShape(j, trail);
    }
  }

  lemma {:induction false} StripBlankOnly(b: string)
    requires b == "" || b == " "
    ensures Strip(b + []) == []
  {
    assert b + [] == b;
    if b == " " {
      assert IsSpace(b[0]) && b[1..] == [];
      assert DropSpaces(b) == DropSpaces([]) == [];
    }
  }

  lemma {:induction false} DropSpacesAllSpace(s: string)
    requires AllSpace(s)
    ensures DropSpaces(s) == []
  {
    if s != [] {
      DropSpacesAllSpace(s[1..]);
    }
  }

  lemma {:induction false} StripRightKeepsHead(t: string)
    requires t != [] && !IsSpace(t[0])
    ensures StripRight(t) != []
  {
    if |t| > 1 && IsSpace(t[|t| - 1]) {
      StripRightKeepsHead(t[..|t| - 1]);
    }
  }

  /** `s.strip()` is empty exactly when `s` holds only whitespace. */
  lemma StripEmptyIffAllSpace(s: string)
    ensures Strip(s) == [] <==> AllSpace(s)
  {
    var t := DropSpaces(s);
    if AllSpace(s) {
      DropSpacesAllSpace(s);
    } else {
      DropSpacesDropsOnlySpace(s);
      assert s == s[..|s| - |t|] + t;
      if t != [] {
        StripRightKeepsHead(t);
      }
    }
  }

  // ---- case folding, substring search, occurrence counting ----

  function LowerChar(c: char): char
  {
    if 'A' <= c <= 'Z' then (c as int + 32) as char else c
  }

  /** `str.lower()` restricted to ASCII letters. */
  function Lower(s: string): (r: string)
    ensures |r| == |s|
    ensures forall i :: 0 <= i < |s| ==> r[i] == LowerChar(s[i])
  {
    if s == [] then [] else [LowerChar(s[0])] + Lower(s[1..])
  }

  lemma LowerIdempotent(s: string)
    ensures Lower(Lower(s)) == Lower(s)
  {
  }

  /** Python's `p in s` for strings. */
  predicate Contains(s: string, p: string)
  {
    p <= s || (s != [] && Contains(s[1..], p))
  }

  /** `p` occurs in `s` starting at index `i`. */
  predicate OccursAt(s: string, p: string, i: int)
  {
    0 <= i <= |s| - |p| && s[i..i + |p|] == p
  }

  /** `Contains` is the substring relation: some position of `s` starts a copy of `p`. */
  lemma {:induction false} ContainsIffOccurs(s: string, p: string)
    ensures Contains(s, p) <==> exists i :: OccursAt(s, p, i)
  {
    if p <= s {
      assert OccursAt(s, p, 0);
    } else if s != [] {
      ContainsIffOccurs(s[1..], p);
      if Contains(s[1..], p) {
        var i :| OccursAt(s[1..], p, i);
        assert s[i + 1..i + 1 + |p|] == s[1..][i..i + |p|];
        assert OccursAt(s, p, i + 1);
      }
      if exists i :: OccursAt(s, p, i) {
        var i :| OccursAt(s, p, i);
        if i != 0 {
          assert s[1..][i - 1..i - 1 + |p|] == s[i..i + |p|];
          assert OccursAt(s[1..], p, i - 1);
        }
      }
    }
  }

  /** Python's `s.count(p)`: non-overlapping occurrences from left to right; an empty
      pattern occurs `|s| + 1` times. */
  function CountOf(s: string, p: string): nat
    decreases |s|
  {
    if p == [] then |s| + 1
    else if |s| < |p| then 0
    else if p <= s then 1 + CountOf(s[|p|..], p)
    else CountOf(s[1..], p)
  }

  // ---- decimal rendering of integers (Python's str(int)) ----

  function DigitChar(d: nat): char
    requires d < 10
  {
    ('0' as int + d) as char
  }

  function DigitValue(c: char): int
  {
    c as int - '0' as int
  }

  function NatToString(n: nat): (r: string)
    ensures |r| > 0
    decreases n
  {
    if n < 10 then [DigitChar(n)] else NatToString(n / 10) + [DigitChar(n % 10)]
  }

  function IntToString(i: int): string
  {
    if i < 0 then "-" + NatToString(-i) else NatToString(i)
  }

  /** Reads a string of decimal digits back (most significant first). */
  function ParseDigits(s: string): int
  {
    if s == [] then 0 else 10 * ParseDigits(s[..|s| - 1]) + DigitValue(s[|s| - 1])
  }

  function ParseInt(s: string): int
  {
    if s != [] && s[0] == '-' then -ParseDigits(s[1..]) else ParseDigits(s)
  }

  lemma {:induction false} ParseNatToString(n: nat)
    ensures ParseDigits(NatToString(n)) == n
    ensures NatToString(n)[0] != '-'
    decreases n
  {
    if n >= 10 {
      ParseNatToString(n / 10);
      var s := NatToString(n);
      assert s[..|s| - 1] == NatToString(n / 10);
    }
  }

  /** `IntToString` renders every integer, negative ones included, so that it reads back. */
  lemma IntToStringRoundTrip(i: int)
    ensures ParseInt(IntToString(i)) == i
  {
    if i < 0 {
      ParseNatToString(-i);
      assert ("-" + NatToString(-i))[1..] == NatToString(-i);
    } else {
      ParseNatToString(i);
    }
  }
}
