/**
 * Canonical taxon names (ranges.go, `canon`): the name's words, separated by
 * exactly one space, lower-cased, with the first letter upper-cased.
 *
 * Word splitting follows Go's `strings.Fields`, that is, Go's `unicode.IsSpace`
 * classification of white space. Case mapping is modelled for ASCII letters only.
 */
module Names {

  /** Go's `unicode.IsSpace`: the Latin-1 spaces plus the Unicode White_Space property. */
  predicate IsSpace(c: char) {
    c == '\t' || c == '\n' || c == '\U{000B}' || c == '\U{000C}' || c == '\r' || c == ' '
    || c == '\U{0085}' || c == '\U{00A0}' || c == '\U{1680}'
    || ('\U{2000}' <= c <= '\U{200A}')
    || c == '\U{2028}' || c == '\U{2029}' || c == '\U{202F}' || c == '\U{205F}' || c == '\U{3000}'
  }

  predicate IsUpper(c: char) { 'A' <= c <= 'Z' }

  predicate IsLower(c: char) { 'a' <= c <= 'z' }

  function LowerChar(c: char): (d: char)
    ensures !IsUpper(d)
    ensures IsSpace(d) <==> IsSpace(c)
    ensures IsSpace(c) ==> d == c
  {
    if IsUpper(c) then (c as int + 32) as char else c
  }

  function UpperChar(c: char): (d: char)
    ensures !IsLower(d)
    ensures IsSpace(d) <==> IsSpace(c)
    ensures IsSpace(c) ==> d == c
    ensures LowerChar(d) == LowerChar(c)
  {
    if IsLower(c) then (c as int - 32) as char else c
  }

  /** `strings.ToLower`, restricted to ASCII letters. */
  function Lower(s: string): (r: string)
    ensures |r| == |s|
    ensures forall i :: 0 <= i < |s| ==> r[i] == LowerChar(s[i])
  {
    seq(|s|, i requires 0 <= i < |s| => LowerChar(s[i]))
  }

  /** A string without upper-case letters is its own lower-case form. */
  lemma LowerUnchanged(s: string)
    requires forall i :: 0 <= i < |s| ==> !IsUpper(s[i])
    ensures Lower(s) == s
  {
  }

  /** Upper-cases the first character only (the `unicode.ToUpper` of the first rune). */
  function Capitalize(s: string): (r: string)
    ensures |r| == |s|
    ensures |s| > 0 ==> r[0] == UpperChar(s[0])
    ensures forall i :: 1 <= i < |s| ==> r[i] == s[i]
  {
    if s == "" then "" else [UpperChar(s[0])] + s[1..]
  }

  predicate Blank(s: string) {
    forall i :: 0 <= i < |s| ==> IsSpace(s[i])
  }

  predicate IsWord(w: string) {
    w != "" && forall i :: 0 <= i < |w| ==> !IsSpace(w[i])
  }

  /**
   * No leading or trailing white space, and every white-space character is a
   * single ' ' between two words.
   */
  ghost predicate Normal(s: string) {
    && (forall i :: 0 <= i < |s| && IsSpace(s[i]) ==> s[i] == ' ' && 0 < i < |s| - 1)
    && (forall i, j :: 0 <= i < j < |s| && j == i + 1 ==> !IsSpace(s[i]) || !IsSpace(s[j]))
  }

  /** Length of the leading run of white space. */
  function SpaceRun(s: string): (n: nat)
    ensures n <= |s|
    ensures forall i :: 0 <= i < n ==> IsSpace(s[i])
    ensures n < |s| ==> !IsSpace(s[n])
  {
    if s == "" || !IsSpace(s[0]) then 0 else 1 + SpaceRun(s[1..])
  }

  /** Length of the leading run of non-space characters. */
  function WordRun(s: string): (n: nat)
    ensures n <= |s|
    ensures forall i :: 0 <= i < n ==> !IsSpace(s[i])
    ensures n < |s| ==> IsSpace(s[n])
    ensures s != "" && !IsSpace(s[0]) ==> n > 0
  {
    if s == "" || IsSpace(s[0]) then 0 else 1 + WordRun(s[1..])
  }

  /** `strings.Fields`: the maximal runs of non-space characters, in order. */
  function Words(s: string): (ws: seq<string>)
    ensures forall k :: 0 <= k < |ws| ==> IsWord(ws[k])
    ensures ws == [] <==> Blank(s)
    decreases |s|
  {
    var t := s[SpaceRun(s)..];
    LeadingWord(s);
    if t == "" then []
    else
      var n := WordRun(t);
      var rest := Words(t[n..]);
      WordsCons(t[..n], rest);
      [t[..n]] + rest
  }

  lemma WordsCons(w: string, rest: seq<string>)
    requires IsWord(w) && forall k :: 0 <= k < |rest| ==> IsWord(rest[k])
    ensures forall k :: 0 <= k < |[w] + rest| ==> IsWord(([w] + rest)[k])
  {
  }

  /** After the leading white space, either nothing is left or a word starts. */
  lemma LeadingWord(s: string)
    ensures s[SpaceRun(s)..] == "" <==> Blank(s)
    ensures s[SpaceRun(s)..] != "" ==> IsWord(s[SpaceRun(s)..][..WordRun(s[SpaceRun(s)..])])
  {
    var m := SpaceRun(s);
    if m < |s| {
      assert !IsSpace(s[m]);
    }
  }

  /** `strings.Join(ws, " ")`. */
  function Join(ws: seq<string>): string {
    if ws == [] then ""
    else if |ws| == 1 then ws[0]
    else ws[0] + " " + Join(ws[1..])
  }

  /** The white-space collapsing step of `canon`. */
  function Collapse(s: string): string {
    Join(Words(s))
  }

  /**
   * `canon`: the canonical form used as the key of every lookup. It is empty
   * exactly for blank input, and capitalised: first letter upper-case, every
   * other letter lower-case (`CanonNormal` adds that its spacing is normal).
   */
  function Canon(s: string): (r: string)
    ensures r == "" <==> Blank(s)
    ensures r != "" ==> !IsLower(r[0]) && forall i :: 1 <= i < |r| ==> !IsUpper(r[i])
  {
    var j := Collapse(s);
    JoinNormal(Words(s));
    if j == "" then "" else Capitalize(Lower(j))
  }

  /** A canonical name has single spaces between words and none at the ends. */
  lemma CanonNormal(s: string)
    ensures Normal(Canon(s))
  {
    var j := Collapse(s);
    JoinNormal(Words(s));
    if j != "" {
      CaseMapKeepsNormal(j);
    }
  }

  /** Joining words yields a normal string, empty exactly when there are no words. */
  lemma {:induction false} JoinNormal(ws: seq<string>)
    requires forall k :: 0 <= k < |ws| ==> IsWord(ws[k])
    ensures Normal(Join(ws))
    ensures Join(ws) == "" <==> ws == []
  {
    if |ws| > 1 {
      JoinNormal(ws[1..]);
      var w, rest := ws[0], Join(ws[1..]);
      var j := w + " " + rest;
      assert Join(ws) == j;
      forall i | 0 <= i < |j| && IsSpace(j[i])
        ensures j[i] == ' ' && 0 < i < |j| - 1 && !IsSpace(j[i + 1])
      {
        if i == |w| {
          assert j[i + 1] == rest[0];
          assert IsWord(ws[1]);
        } else if i > |w| {
          assert j[i] == rest[i - |w| - 1];
          if i + 1 < |j| {
            assert j[i + 1] == rest[i - |w|];
          }
        }
      }
    }
  }

  /** Lower-casing, then capitalising, a normal string keeps it normal. */
  lemma CaseMapKeepsNormal(j: string)
    requires Normal(j)
    ensures Normal(Capitalize(Lower(j)))
  {
    var r := Capitalize(Lower(j));
    assert forall i :: 0 <= i < |j| ==> (IsSpace(r[i]) <==> IsSpace(j[i])) && (IsSpace(j[i]) ==> r[i] == j[i]);
  }

  /** What follows the first space of a normal string is normal. */
  lemma NormalAfterSpace(s: string, n: nat)
    requires Normal(s) && n < |s| && IsSpace(s[n])
    ensures n + 1 < |s| && !IsSpace(s[n + 1]) && Normal(s[n + 1..])
  {
    var rest := s[n + 1..];
    forall i | 0 <= i < |rest| && IsSpace(rest[i])
      ensures rest[i] == ' ' && 0 < i < |rest| - 1 && !IsSpace(rest[i + 1])
    {
      assert rest[i] == s[n + 1 + i];
      if i + 1 < |rest| { assert rest[i + 1] == s[n + 2 + i]; }
    }
  }

  /** A single leading space does not change the words. */
  lemma WordsAfterSpace(u: string)
    requires |u| > 1 && IsSpace(u[0]) && !IsSpace(u[1])
    ensures Words(u) == Words(u[1..])
  {
    assert SpaceRun(u[1..]) == 0;
    assert SpaceRun(u) == 1;
  }

  lemma JoinCons(w: string, ws: seq<string>)
    requires ws != []
    ensures Join([w] + ws) == w + " " + Join(ws)
  {
    assert ([w] + ws)[1..] == ws;
  }

  /** Collapsing a string whose first word ends at a single space. */
  lemma CollapseAtSpace(s: string, n: nat)
    requires s != "" && !IsSpace(s[0]) && n == WordRun(s) && n + 1 < |s|
    requires s[n] == ' ' && !IsSpace(s[n + 1])
    ensures Collapse(s) == s[..n] + " " + Collapse(s[n + 1..])
  {
    var rest := s[n + 1..];
    assert SpaceRun(s) == 0;
    assert Words(s) == [s[..n]] + Words(s[n..]);
    assert Words(s[n..]) == Words(rest) by {
      WordsAfterSpace(s[n..]);
      assert s[n..][1..] == rest;
    }
    assert Words(rest) != [] by { assert !Blank(rest); }
    JoinCons(s[..n], Words(rest));
  }

  /** A normal string is the join of its own words. */
  lemma {:induction false} JoinWordsOfNormal(s: string)
    requires Normal(s)
    ensures Collapse(s) == s
    decreases |s|
  {
    if s != "" {
      var n := WordRun(s);
      if n < |s| {
        NormalAfterSpace(s, n);
        var rest := s[n + 1..];
        CollapseAtSpace(s, n);
        JoinWordsOfNormal(rest);
        assert s == s[..n] + [s[n]] + rest;
      } else {
        CollapseOneWord(s);
      }
    }
  }

  /** A string without white space collapses to itself. */
  lemma CollapseOneWord(s: string)
    requires s != "" && !IsSpace(s[0]) && WordRun(s) == |s|
    ensures Collapse(s) == s
  {
    assert SpaceRun(s) == 0;
    assert s[..|s|] == s && s[|s|..] == "";
    assert Words("") == [];
    assert Words(s) == [s];
  }

  /** `canon` is idempotent: a canonical name is its own canonical form. */
  lemma CanonIdempotent(s: string)
    ensures Canon(Canon(s)) == Canon(s)
  {
    var r := Canon(s);
    if r != "" {
      CanonNormal(s);
      JoinWordsOfNormal(r);
      var j := Collapse(s);
      assert r == Capitalize(Lower(j));
      assert Lower(r) == Lower(j);
    }
  }

  /** Lower-casing a canonical name gives back the lower-cased collapsed name. */
  lemma LowerCanon(s: string)
    ensures Lower(Canon(s)) == Lower(Collapse(s))
  {
    var j := Collapse(s);
    if j != "" {
      assert Canon(s) == Capitalize(Lower(j));
    }
  }

  /**
   * Two names denote the same taxon exactly when their collapsed forms agree
   * up to case.
   */
  lemma CanonSameKey(a: string, b: string)
    ensures Canon(a) == Canon(b) <==> Lower(Collapse(a)) == Lower(Collapse(b))
  {
    LowerCanon(a);
    LowerCanon(b);
    var ja, jb := Collapse(a), Collapse(b);
    if Lower(ja) == Lower(jb) {
      assert |ja| == |jb|;
      if ja != "" {
        assert Canon(a) == Capitalize(Lower(ja));
        assert Canon(b) == Capitalize(Lower(jb));
      }
    }
  }

  /** The characters of `s` that are not white space, in order. */
  function NonSpace(s: string): string {
    if s == "" then ""
    else (if IsSpace(s[0]) then "" else [s[0]]) + NonSpace(s[1..])
  }

  /** The words written one after another with nothing between them. */
  function Concat(ws: seq<string>): string {
    if ws == [] then "" else ws[0] + Concat(ws[1..])
  }

  lemma {:induction false} NonSpaceAppend(x: string, y: string)
    ensures NonSpace(x + y) == NonSpace(x) + NonSpace(y)
    decreases |x|
  {
    if x == "" {
      assert x + y == y;
    } else {
      assert (x + y)[1..] == x[1..] + y;
      NonSpaceAppend(x[1..], y);
    }
  }

  lemma {:induction false} NonSpaceOfBlank(w: string)
    requires Blank(w)
    ensures NonSpace(w) == ""
    decreases |w|
  {
    if w != "" {
      NonSpaceOfBlank(w[1..]);
    }
  }

  lemma {:induction false} NonSpaceOfWord(w: string)
    requires forall i :: 0 <= i < |w| ==> !IsSpace(w[i])
    ensures NonSpace(w) == w
    decreases |w|
  {
    if w != "" {
      NonSpaceOfWord(w[1..]);
      assert w == [w[0]] + w[1..];
    }
  }

  /**
   * The words hold every non-space character of `s`, in the order of `s`:
   * nothing is dropped, repeated or moved.
   */
  lemma {:induction false} WordsKeepText(s: string)
    ensures Concat(Words(s)) == NonSpace(s)
    decreases |s|
  {
    var m := SpaceRun(s);
    var lead, t := s[..m], s[m..];
    SplitAppend(s, m, "", "");
    BlankAppend(lead, "");
    NonSpaceAppend(lead, t);
    NonSpaceOfBlank(lead);
    LeadingWord(s);
    if t != "" {
      var n := WordRun(t);
      var word, after := t[..n], t[n..];
      WordsFirst(s);
      ConcatCons(Words(s));
      WordsKeepText(after);
      SplitAppend(t, n, "", "");
      NonSpaceAppend(word, after);
      NonSpaceOfWord(word);
    }
  }

  lemma ConcatCons(ws: seq<string>)
    requires ws != []
    ensures Concat(ws) == ws[0] + Concat(ws[1..])
  {
  }

  /**
   * A run of non-space characters is one word. With `WordsSplit` and the
   * blank case of `Words`, this fixes the words of every string.
   */
  lemma WordsOfWord(x: string)
    requires IsWord(x)
    ensures Words(x) == [x]
  {
    assert SpaceRun(x) == 0 && x[0..] == x;
    assert WordRun(x) == |x|;
    WordsFirst(x);
    assert x[..|x|] == x && x[|x|..] == "";
    assert Words("") == [];
  }

  /** The first word of `s` and what follows it, after any leading space. */
  lemma WordsFirst(s: string)
    requires s[SpaceRun(s)..] != ""
    ensures var t := s[SpaceRun(s)..];
      var ws := Words(s);
      ws != [] && ws[0] == t[..WordRun(t)] && ws[1..] == Words(t[WordRun(t)..])
  {
  }

  /** The canonical form depends on the words alone. */
  lemma CanonOfWords(x: string, y: string)
    requires Words(x) == Words(y)
    ensures Canon(x) == Canon(y)
  {
  }

  lemma {:induction false} SpaceRunBlankPrefix(w: string, b: string)
    requires Blank(w)
    ensures SpaceRun(w + b) == |w| + SpaceRun(b)
    decreases |w|
  {
    if w == "" {
      assert w + b == b;
    } else {
      assert (w + b)[1..] == w[1..] + b;
      SpaceRunBlankPrefix(w[1..], b);
    }
  }

  /** Leading white space does not change the words. */
  lemma WordsBlankPrefix(w: string, b: string)
    requires Blank(w)
    ensures Words(w + b) == Words(b)
  {
    SpaceRunBlankPrefix(w, b);
    DropPrefix(w, b, SpaceRun(b));
    WordsAfterLead(w + b, b);
  }

  /** The words depend only on what follows the leading white space. */
  lemma WordsAfterLead(x: string, y: string)
    requires x[SpaceRun(x)..] == y[SpaceRun(y)..]
    ensures Words(x) == Words(y)
  {
  }

  lemma DropPrefix(w: string, b: string, k: nat)
    requires k <= |b|
    ensures (w + b)[|w| + k..] == b[k..]
  {
  }

  lemma {:induction false} WordRunPrefix(x: string, y: string)
    ensures WordRun(x) < |x| ==> WordRun(x + y) == WordRun(x)
    ensures WordRun(x) == |x| && (y == "" || IsSpace(y[0])) ==> WordRun(x + y) == |x|
    decreases |x|
  {
    if x == "" {
      assert x + y == y;
    } else if !IsSpace(x[0]) {
      assert (x + y)[1..] == x[1..] + y;
      WordRunPrefix(x[1..], y);
    }
  }

  /** A word followed by white space or nothing comes first among the words. */
  lemma WordsFirstWord(a: string, y: string)
    requires a != "" && !IsSpace(a[0]) && (y == "" || IsSpace(y[0]))
    ensures Words(a + y) == [a[..WordRun(a)]] + Words(a[WordRun(a)..] + y)
  {
    var s, n := a + y, WordRun(a);
    SliceAppend(a, y, n);
    WordRunPrefix(a, y);
    assert SpaceRun(s) == 0 && s[0..] == s;
    WordsFirst(s);
  }

  lemma SliceAppend(a: string, y: string, n: nat)
    requires n <= |a|
    ensures (a + y)[..n] == a[..n] && (a + y)[n..] == a[n..] + y
  {
  }

  /**
   * A non-empty run of white space separates words: the words of
   * `a + w + b` are those of `a` followed by those of `b`.
   */
  lemma {:induction false} WordsSplit(a: string, w: string, b: string)
    requires Blank(w) && w != ""
    ensures Words(a + w + b) == Words(a) + Words(b)
    decreases |a|
  {
    var m := SpaceRun(a);
    if m == |a| {
      BlankAppend(a, w);
      WordsBlankPrefix(a + w, b);
    } else if m > 0 {
      var lead, rest := a[..m], a[m..];
      SplitAppend(a, m, w, b);
      BlankAppend(lead, "");
      WordsBlankPrefix(lead, rest + w + b);
      WordsBlankPrefix(lead, rest);
      WordsSplit(rest, w, b);
    } else {
      var n := WordRun(a);
      var word, rest := a[..n], a[n..];
      assert (w + b)[0] == w[0];
      WordsFirstWord(a, w + b);
      Assoc(a, w, b);
      Assoc(rest, w, b);
      WordsFirstWord(a, "");
      Assoc(a, "", "");
      Assoc(rest, "", "");
      WordsSplit(rest, w, b);
      ConsAppend(word, Words(rest), Words(b));
    }
  }

  lemma BlankAppend(a: string, w: string)
    requires Blank(a) && Blank(w)
    ensures Blank(a + w) && Blank(a[..|a|])
  {
  }

  lemma SplitAppend(a: string, m: nat, w: string, b: string)
    requires m <= |a|
    ensures a[..m] + a[m..] == a
    ensures a + w + b == a[..m] + (a[m..] + w + b)
  {
  }

  lemma Assoc<T>(x: seq<T>, y: seq<T>, z: seq<T>)
    ensures x + (y + z) == x + y + z
    ensures x + [] == x
  {
  }

  lemma ConsAppend<T>(x: T, p: seq<T>, q: seq<T>)
    ensures [x] + (p + q) == ([x] + p) + q
  {
  }

  /**
   * Widening or narrowing a run of white space inside a name does not change
   * its canonical form.
   */
  lemma CanonWidenedSpace(a: string, w1: string, w2: string, b: string)
    requires Blank(w1) && w1 != "" && Blank(w2) && w2 != ""
    ensures Canon(a + w1 + b) == Canon(a + w2 + b)
  {
    WordsSplit(a, w1, b);
    WordsSplit(a, w2, b);
    CanonOfWords(a + w1 + b, a + w2 + b);
  }

  /** Blank text at either end of a name does not change its canonical form. */
  lemma CanonTrimmed(w: string, s: string, v: string)
    requires Blank(w) && Blank(v)
    ensures Canon(w + s + v) == Canon(s)
  {
    assert w + s + v == w + (s + v);
    WordsBlankPrefix(w, s + v);
    if v == "" {
      assert s + v == s;
    } else {
      assert s + v + "" == s + v;
      WordsSplit(s, v, "");
    }
    CanonOfWords(w + s + v, s);
  }
}
