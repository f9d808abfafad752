/** HTML escaping as the report does it, and a small tokenizer that reads an
    HTML string back into tags and text runs. The tokenizer is what the
    rendering lemmas use to say what a rendered fragment contains: which
    tags, how many, and which text follows each of them. */
module Html {
  import Text
  import Seqs

  /** Python's `s.replace(p, r)`: scanning from the left, every occurrence of
      `p` that does not overlap an earlier replaced one becomes `r`. */
  function Replace(s: string, p: string, r: string): string
    requires p != []
    decreases |s|
  {
    if |s| < |p| then s
    else if s[..|p|] == p then r + Replace(s[|p|..], p, r)
    else [s[0]] + Replace(s[1..], p, r)
  }

  /** The entity each character is written as. */
  function Esc(c: char): string
  {
    if c == '&' then "&amp;"
    else if c == '<' then "&lt;"
    else if c == '>' then "&gt;"
    else if c == '"' then "&quot;"
    else if c == '\'' then "&#x27;"
    else [c]
  }

  /** The reference meaning of escaping: every character replaced by its
      entity, independently of its neighbours. */
  function EscapeChars(s: string): string
  {
    if s == [] then [] else Esc(s[0]) + EscapeChars(s[1..])
  }

  predicate IsMarkup(c: char)
  {
    c == '<' || c == '>' || c == '"' || c == '\''
  }

  predicate NoMarkup(s: string)
  {
    forall i :: 0 <= i < |s| ==> !IsMarkup(s[i])
  }

  /** `_escape_html`: five replacements, `&` first so that the ampersands the
      later ones introduce are not escaped again. The result is the
      per-character escape, holds none of `<`, `>`, `"`, `'`, and undoing the
      five entities (`&amp;` last) gives the text back. */
  function EscapeHtml(text: string): (r: string)
    ensures r == EscapeChars(text)
    ensures NoMarkup(r)
    ensures UnescapeHtml(r) == text
  {
    var r := Replace(Replace(Replace(Replace(Replace(text, "&", "&amp;"), "<", "&lt;"), ">", "&gt;"), "\"", "&quot;"), "'", "&#x27;");
    assert r == EscapeChars(text) by { EscapeIsPerChar(text); }
    EscapeCharsNoMarkup(text);
    UnescapeEscape(text);
    r
  }

  /** The inverse replacement chain, `&amp;` last. */
  function UnescapeHtml(s: string): string
  {
    Replace(Replace(Replace(Replace(Replace(s, "&#x27;", "'"), "&quot;", "\""), "&gt;", ">"), "&lt;", "<"), "&amp;", "&")
  }

  // ---- Escaping, one character at a time ----

  /** Replacing each `c` by `r`, the meaning of `replace` with a
      one-character pattern. */
  function Subst(s: string, c: char, r: string): string
  {
    if s == [] then [] else (if s[0] == c then r else [s[0]]) + Subst(s[1..], c, r)
  }

  lemma {:induction false} ReplaceOneChar(s: string, c: char, r: string)
    ensures Replace(s, [c], r) == Subst(s, c, r)
  {
    if s != [] {
      ReplaceOneChar(s[1..], c, r);
      assert s[..1] == [s[0]];
      assert s[1..] == s[|[c]|..];
    }
  }

  lemma {:induction false} SubstAppend(a: string, b: string, c: char, r: string)
    ensures Subst(a + b, c, r) == Subst(a, c, r) + Subst(b, c, r)
  {
    if a == [] {
      assert a + b == b;
    } else {
      assert (a + b)[0] == a[0];
      assert (a + b)[1..] == a[1..] + b;
      SubstAppend(a[1..], b, c, r);
    }
  }

  lemma {:induction false} SubstAbsent(s: string, c: char, r: string)
    requires c !in s
    ensures Subst(s, c, r) == s
  {
    if s != [] {
      assert c !in s[1..] by {
        assert forall k :: 0 <= k < |s[1..]| ==> s[1..][k] == s[k + 1];
      }
      SubstAbsent(s[1..], c, r);
    }
  }

  function Chain(s: string): string
  {
    Subst(Subst(Subst(Subst(Subst(s, '&', "&amp;"), '<', "&lt;"), '>', "&gt;"), '"', "&quot;"), '\'', "&#x27;")
  }

  lemma ChainAppend(a: string, b: string)
    ensures Chain(a + b) == Chain(a) + Chain(b)
  {
    var s1a, s1b := Subst(a, '&', "&amp;"), Subst(b, '&', "&amp;");
    SubstAppend(a, b, '&', "&amp;");
    var s2a, s2b := Subst(s1a, '<', "&lt;"), Subst(s1b, '<', "&lt;");
    SubstAppend(s1a, s1b, '<', "&lt;");
    var s3a, s3b := Subst(s2a, '>', "&gt;"), Subst(s2b, '>', "&gt;");
    SubstAppend(s2a, s2b, '>', "&gt;");
    var s4a, s4b := Subst(s3a, '"', "&quot;"), Subst(s3b, '"', "&quot;");
    SubstAppend(s3a, s3b, '"', "&quot;");
    SubstAppend(s4a, s4b, '\'', "&#x27;");
  }

  lemma SubstOne(x: char, c: char, r: string)
    ensures Subst([x], c, r) == if x == c then r else [x]
  {
    assert [x][1..] == [];
  }

  lemma ChainAmp()
    ensures Chain("&") == "&amp;"
  {
    var s1 := Subst("&", '&', "&amp;");
    SubstOne('&', '&', "&amp;");
    var s2 := Subst(s1, '<', "&lt;");
    assert s1 == "&amp;";
    SubstAbsent("&amp;", '<', "&lt;");
    var s3 := Subst(s2, '>', "&gt;");
    assert s2 == "&amp;";
    SubstAbsent("&amp;", '>', "&gt;");
    var s4 := Subst(s3, '"', "&quot;");
    assert s3 == "&amp;";
    SubstAbsent("&amp;", '"', "&quot;");
    var s5 := Subst(s4, '\'', "&#x27;");
    assert s4 == "&amp;";
    SubstAbsent("&amp;", '\'', "&#x27;");
  }

  lemma ChainLt()
    ensures Chain("<") == "&lt;"
  {
    var s1 := Subst("<", '&', "&amp;");
    SubstOne('<', '&', "&amp;");
    var s2 := Subst(s1, '<', "&lt;");
    SubstOne('<', '<', "&lt;");
    var s3 := Subst(s2, '>', "&gt;");
    assert s2 == "&lt;";
    SubstAbsent("&lt;", '>', "&gt;");
    var s4 := Subst(s3, '"', "&quot;");
    assert s3 == "&lt;";
    SubstAbsent("&lt;", '"', "&quot;");
    var s5 := Subst(s4, '\'', "&#x27;");
    assert s4 == "&lt;";
    SubstAbsent("&lt;", '\'', "&#x27;");
  }

  lemma ChainGt()
    ensures Chain(">") == "&gt;"
  {
    var s1 := Subst(">", '&', "&amp;");
    SubstOne('>', '&', "&amp;");
    var s2 := Subst(s1, '<', "&lt;");
    SubstOne('>', '<', "&lt;");
    var s3 := Subst(s2, '>', "&gt;");
    SubstOne('>', '>', "&gt;");
    var s4 := Subst(s3, '"', "&quot;");
    assert s3 == "&gt;";
    SubstAbsent("&gt;", '"', "&quot;");
    var s5 := Subst(s4, '\'', "&#x27;");
    assert s4 == "&gt;";
    SubstAbsent("&gt;", '\'', "&#x27;");
  }

  lemma ChainQuot()
    ensures Chain("\"") == "&quot;"
  {
    var s1 := Subst("\"", '&', "&amp;");
    SubstOne('"', '&', "&amp;");
    var s2 := Subst(s1, '<', "&lt;");
    SubstOne('"', '<', "&lt;");
    var s3 := Subst(s2, '>', "&gt;");
    SubstOne('"', '>', "&gt;");
    var s4 := Subst(s3, '"', "&quot;");
    SubstOne('"', '"', "&quot;");
    var s5 := Subst(s4, '\'', "&#x27;");
    assert s4 == "&quot;";
    SubstAbsent("&quot;", '\'', "&#x27;");
  }

  lemma ChainApos()
    ensures Chain("'") == "&#x27;"
  {
    var s1 := Subst("'", '&', "&amp;");
    SubstOne('\'', '&', "&amp;");
    var s2 := Subst(s1, '<', "&lt;");
    SubstOne('\'', '<', "&lt;");
    var s3 := Subst(s2, '>', "&gt;");
    SubstOne('\'', '>', "&gt;");
    var s4 := Subst(s3, '"', "&quot;");
    SubstOne('\'', '"', "&quot;");
    var s5 := Subst(s4, '\'', "&#x27;");
    SubstOne('\'', '\'', "&#x27;");
  }

  lemma ChainPlain(x: char)
    requires !IsMarkup(x) && x != '&'
    ensures Chain([x]) == [x]
  {
    SubstOne(x, '&', "&amp;");
    SubstOne(x, '<', "&lt;");
    SubstOne(x, '>', "&gt;");
    SubstOne(x, '"', "&quot;");
    SubstOne(x, '\'', "&#x27;");
  }

  lemma ChainChar(x: char)
    ensures Chain([x]) == Esc(x)
  {
    if x == '&' {
      ChainAmp();
    } else if x == '<' {
      ChainLt();
    } else if x == '>' {
      ChainGt();
    } else if x == '"' {
      ChainQuot();
    } else if x == '\'' {
      ChainApos();
    } else {
      ChainPlain(x);
    }
  }

  lemma {:induction false} ChainIsPerChar(s: string)
    ensures Chain(s) == EscapeChars(s)
  {
    if s != [] {
      assert s == [s[0]] + s[1..];
      ChainAppend([s[0]], s[1..]);
      ChainChar(s[0]);
      ChainIsPerChar(s[1..]);
    }
  }

  /** The replacement chain of `_escape_html` escapes each character on its
      own. */
  lemma EscapeIsPerChar(text: string)
    ensures Replace(Replace(Replace(Replace(Replace(text, "&", "&amp;"), "<", "&lt;"), ">", "&gt;"), "\"", "&quot;"), "'", "&#x27;")
         == EscapeChars(text)
  {
    var s1 := Replace(text, "&", "&amp;");
    ReplaceOneChar(text, '&', "&amp;");
    var s2 := Replace(s1, "<", "&lt;");
    ReplaceOneChar(s1, '<', "&lt;");
    var s3 := Replace(s2, ">", "&gt;");
    ReplaceOneChar(s2, '>', "&gt;");
    var s4 := Replace(s3, "\"", "&quot;");
    ReplaceOneChar(s3, '"', "&quot;");
    ReplaceOneChar(s4, '\'', "&#x27;");
    ChainIsPerChar(text);
  }

  lemma {:induction false} EscapeCharsNoMarkup(s: string)
    ensures NoMarkup(EscapeChars(s))
  {
    if s != [] {
      EscapeCharsNoMarkup(s[1..]);
      var e, rest := Esc(s[0]), EscapeChars(s[1..]);
      assert NoMarkup(e);
      assert forall i :: 0 <= i < |e + rest| ==> (e + rest)[i] == if i < |e| then e[i] else rest[i - |e|];
    }
  }

  // ---- Unescaping, one entity at a time ----

  /** `&` followed by a name and `;`, with no other `&` or `;`. */
  predicate Entity(t: string)
  {
    |t| >= 2 && t[0] == '&' && t[|t| - 1] == ';'
    && (forall i :: 1 <= i < |t| ==> t[i] != '&')
    && (forall i :: 0 <= i < |t| - 1 ==> t[i] != ';')
  }

  /** A single character other than `&`. */
  predicate Plain(t: string)
  {
    |t| == 1 && t[0] != '&'
  }

  function Concat(ts: seq<string>): string
  {
    if ts == [] then "" else ts[0] + Concat(ts[1..])
  }

  function Swap(ts: seq<string>, p: string, r: string): (us: seq<string>)
    ensures |us| == |ts|
    ensures forall i :: 0 <= i < |ts| ==> us[i] == if ts[i] == p then r else ts[i]
  {
    seq(|ts|, i requires 0 <= i < |ts| => if ts[i] == p then r else ts[i])
  }

  /** Replacement never starts inside a run that holds no first character
      of the pattern. */
  lemma {:induction false} ReplaceSkip(u: string, x: string, p: string, r: string)
    requires p != [] && forall i :: 0 <= i < |u| ==> u[i] != p[0]
    ensures Replace(u + x, p, r) == u + Replace(x, p, r)
  {
    if u == [] {
      assert u + x == x;
    } else if |u + x| >= |p| {
      assert (u + x)[..|p|][0] != p[0];
      assert (u + x)[1..] == u[1..] + x;
      ReplaceSkip(u[1..], x, p, r);
    }
  }

  /** An entity or plain character other than the pattern does not start
      an occurrence of it. */
  lemma NoMatchAtHead(t: string, x: string, p: string)
    requires Entity(p) && (Plain(t) || Entity(t)) && t != p
    requires |t + x| >= |p|
    ensures (t + x)[..|p|] != p
  {
    var s := t + x;
    if Plain(t) {
      assert s[..|p|][0] != p[0];
    } else if |p| < |t| {
      assert s[..|p|][|p| - 1] == t[|p| - 1] != ';';
    } else if |p| == |t| {
      assert s[..|p|] == t;
    } else {
      assert s[..|p|][|t| - 1] == t[|t| - 1] == ';' != p[|t| - 1];
    }
  }

  /** No occurrence at the front: the first character is kept. */
  lemma ReplaceMiss(s: string, p: string, r: string)
    requires p != [] && |s| >= |p| && s[..|p|] != p
    ensures Replace(s, p, r) == [s[0]] + Replace(s[1..], p, r)
  {
  }

  /** An entity other than the pattern, followed by anything, is left alone. */
  lemma ReplaceHead(t: string, x: string, p: string, r: string)
    requires Entity(p) && (Plain(t) || Entity(t)) && t != p
    ensures Replace(t + x, p, r) == t + Replace(x, p, r)
  {
    var s := t + x;
    if |s| >= |p| {
      NoMatchAtHead(t, x, p);
      ReplaceMiss(s, p, r);
      assert s[1..] == t[1..] + x;
      ReplaceSkip(t[1..], x, p, r);
      Seqs.ConcatAssoc([t[0]], t[1..], Replace(x, p, r));
      assert [t[0]] + t[1..] == t;
    } else {
      assert |x| < |p|;
    }
  }

  /** Replacing an entity in a string cut into plain characters and entities
      replaces exactly the pieces equal to it. */
  lemma {:induction false} ReplaceTokens(ts: seq<string>, p: string, r: string)
    requires Entity(p)
    requires forall i :: 0 <= i < |ts| ==> Plain(ts[i]) || Entity(ts[i])
    ensures Replace(Concat(ts), p, r) == Concat(Swap(ts, p, r))
    decreases |ts|
  {
    if ts != [] {
      var t, x := ts[0], Concat(ts[1..]);
      ReplaceTokens(ts[1..], p, r);
      assert Swap(ts, p, r)[1..] == Swap(ts[1..], p, r);
      if t == p {
        assert (t + x)[..|p|] == p;
        assert (t + x)[|p|..] == x;
      } else {
        ReplaceHead(t, x, p, r);
      }
    }
  }

  /** How far unescaping has got: after stage `k` the last `k` entities of
      the chain (`&#x27;`, `&quot;`, `&gt;`, `&lt;`, `&amp;`) are undone. */
  predicate Undone(c: char, k: nat)
  {
    (c == '\'' && k >= 1) || (c == '"' && k >= 2) || (c == '>' && k >= 3)
    || (c == '<' && k >= 4) || (c == '&' && k >= 5)
  }

  function StageTok(c: char, k: nat): string
  {
    if Undone(c, k) then [c] else Esc(c)
  }

  function StageToks(s: string, k: nat): (ts: seq<string>)
    ensures |ts| == |s|
    ensures forall i :: 0 <= i < |s| ==> ts[i] == StageTok(s[i], k)
  {
    seq(|s|, i requires 0 <= i < |s| => StageTok(s[i], k))
  }

  function StageChar(k: nat): char
    requires 1 <= k <= 5
  {
    if k == 1 then '\'' else if k == 2 then '"' else if k == 3 then '>' else if k == 4 then '<' else '&'
  }

  lemma StageTokShape(c: char, k: nat)
    requires k <= 4
    ensures Plain(StageTok(c, k)) || Entity(StageTok(c, k))
  {
  }

  lemma StageTokStep(c: char, k: nat)
    requires k <= 4
    ensures (if StageTok(c, k) == Esc(StageChar(k + 1)) then [StageChar(k + 1)] else StageTok(c, k))
         == StageTok(c, k + 1)
  {
  }

  lemma StageStep(s: string, k: nat, p: string, r: string)
    requires k <= 4 && p == Esc(StageChar(k + 1)) && r == [StageChar(k + 1)]
    ensures Replace(Concat(StageToks(s, k)), p, r) == Concat(StageToks(s, k + 1))
  {
    var ts := StageToks(s, k);
    forall i | 0 <= i < |ts| ensures Plain(ts[i]) || Entity(ts[i]) {
      StageTokShape(s[i], k);
    }
    ReplaceTokens(ts, Esc(StageChar(k + 1)), [StageChar(k + 1)]);
    var us, vs := Swap(ts, Esc(StageChar(k + 1)), [StageChar(k + 1)]), StageToks(s, k + 1);
    forall i | 0 <= i < |us| ensures us[i] == vs[i] {
      StageTokStep(s[i], k);
    }
    assert us == vs;
  }

  lemma StageEnds(s: string)
    ensures Concat(StageToks(s, 0)) == EscapeChars(s)
    ensures Concat(StageToks(s, 5)) == s
  {
    StageStart(s);
    StageFinish(s);
  }

  lemma StageCons(s: string, k: nat)
    requires s != []
    ensures Concat(StageToks(s, k)) == StageTok(s[0], k) + Concat(StageToks(s[1..], k))
  {
    var ts := StageToks(s, k);
    assert ts[1..] == StageToks(s[1..], k);
  }

  lemma {:induction false} StageStart(s: string)
    ensures Concat(StageToks(s, 0)) == EscapeChars(s)
  {
    if s != [] {
      StageStart(s[1..]);
      StageCons(s, 0);
      assert StageTok(s[0], 0) == Esc(s[0]);
    }
  }

  lemma {:induction false} StageFinish(s: string)
    ensures Concat(StageToks(s, 5)) == s
  {
    if s != [] {
      StageFinish(s[1..]);
      StageCons(s, 5);
      assert StageTok(s[0], 5) == [s[0]];
      assert s == [s[0]] + s[1..];
    }
  }

  /** Unescaping undoes escaping. */
  lemma UnescapeEscape(s: string)
    ensures UnescapeHtml(EscapeChars(s)) == s
  {
    StageEnds(s);
    UnescapeStage1(s);
    UnescapeStage2(s);
    UnescapeStage3(s);
    UnescapeStage4(s);
    UnescapeStage5(s);
  }

  lemma UnescapeStage1(s: string)
    ensures Replace(Concat(StageToks(s, 0)), "&#x27;", "'") == Concat(StageToks(s, 1))
  {
    StageStep(s, 0, "&#x27;", "'");
  }

  lemma UnescapeStage2(s: string)
    ensures Replace(Concat(StageToks(s, 1)), "&quot;", "\"") == Concat(StageToks(s, 2))
  {
    StageStep(s, 1, "&quot;", "\"");
  }

  lemma UnescapeStage3(s: string)
    ensures Replace(Concat(StageToks(s, 2)), "&gt;", ">") == Concat(StageToks(s, 3))
  {
    StageStep(s, 2, "&gt;", ">");
  }

  lemma UnescapeStage4(s: string)
    ensures Replace(Concat(StageToks(s, 3)), "&lt;", "<") == Concat(StageToks(s, 4))
  {
    StageStep(s, 3, "&lt;", "<");
  }

  lemma UnescapeStage5(s: string)
    ensures Replace(Concat(StageToks(s, 4)), "&amp;", "&") == Concat(StageToks(s, 5))
  {
    StageStep(s, 4, "&amp;", "&");
  }

  // ---- Reading HTML back ----

  /** A tag `<...>` or a run of text between tags, with its source text. */
  datatype Token = Tag(src: string) | Content(src: string)

  function Serialize(ts: seq<Token>): string
  {
    if ts == [] then "" else ts[0].src + Serialize(ts[1..])
  }

  lemma {:induction false} SerializeAppend(a: seq<Token>, b: seq<Token>)
    ensures Serialize(a + b) == Serialize(a) + Serialize(b)
  {
    if a == [] {
      assert a + b == b;
    } else {
      assert (a + b)[1..] == a[1..] + b;
      SerializeAppend(a[1..], b);
    }
  }

  /** Length of the longest prefix of `s` without `c`. */
  function Until(s: string, c: char): (n: nat)
    ensures n <= |s|
    ensures forall i :: 0 <= i < n ==> s[i] != c
    ensures n < |s| ==> s[n] == c
  {
    if s == [] || s[0] == c then 0 else 1 + Until(s[1..], c)
  }

  /** Splits `s` into tags (from a `<` to the next `>`, or to the end) and the
      text runs between them. Nothing is lost: serialising the tokens gives
      `s` back. */
  function Tokenize(s: string): (ts: seq<Token>)
    ensures Serialize(ts) == s
    decreases |s|
  {
    if s == [] then []
    else
      var n := TokenLen(s);
      var ts := [if s[0] == '<' then Tag(s[..n]) else Content(s[..n])] + Tokenize(s[n..]);
      assert ts[1..] == Tokenize(s[n..]);
      ts
  }

  function TokenLen(s: string): (n: nat)
    requires s != []
    ensures 0 < n <= |s|
  {
    if s[0] == '<' then
      var m := Until(s[1..], '>');
      if m < |s| - 1 then m + 2 else |s|
    else Until(s, '<')
  }

  predicate IsTag(t: string)
  {
    |t| >= 2 && t[0] == '<' && t[|t| - 1] == '>' && '>' !in t[..|t| - 1]
  }

  predicate IsText(t: string)
  {
    t != [] && '<' !in t
  }

  /** Token lists that `Tokenize` produces: tags run from `<` to the first
      `>`, text runs are non-empty and free of `<`, and no two text runs
      are adjacent. */
  predicate WellFormed(ts: seq<Token>)
  {
    (forall i :: 0 <= i < |ts| ==> if ts[i].Tag? then IsTag(ts[i].src) else IsText(ts[i].src))
    && (forall i :: 0 <= i < |ts| - 1 ==> ts[i].Tag? || ts[i + 1].Tag?)
  }

  lemma TokenLenTag(t: string, x: string)
    requires IsTag(t)
    ensures TokenLen(t + x) == |t|
  {
    var s := t + x;
    var m := Until(s[1..], '>');
    assert forall i :: 0 <= i < |t| - 2 ==> s[1..][i] == t[..|t| - 1][i + 1];
    assert s[1..][|t| - 2] == '>';
  }

  lemma TokenLenText(t: string, x: string)
    requires IsText(t) && (x == [] || x[0] == '<')
    ensures TokenLen(t + x) == |t|
  {
    var s := t + x;
    assert forall i :: 0 <= i < |t| ==> s[i] == t[i] && s[i] != '<';
    assert s[0] != '<';
    var n := Until(s, '<');
    if x != [] {
      assert s[|t|] == '<';
    }
    assert n == |t|;
  }

  /** Reading back a well-formed token list gives that list. */
  lemma {:induction false} TokenizeSerialize(ts: seq<Token>)
    requires WellFormed(ts)
    ensures Tokenize(Serialize(ts)) == ts
  {
    if ts != [] {
      var t, x := ts[0].src, Serialize(ts[1..]);
      assert WellFormed(ts[1..]) by {
        assert forall i :: 0 <= i < |ts[1..]| ==> ts[1..][i] == ts[i + 1];
      }
      TokenizeSerialize(ts[1..]);
      if ts[0].Tag? {
        TokenLenTag(t, x);
      } else {
        if ts[1..] != [] {
          assert ts[1].Tag?;
          assert x == ts[1].src + Serialize(ts[2..]);
        }
        TokenLenText(t, x);
      }
      assert (t + x)[..|t|] == t;
      assert (t + x)[|t|..] == x;
    }
  }

  lemma WellFormedAppend(a: seq<Token>, b: seq<Token>)
    requires WellFormed(a) && WellFormed(b)
    requires a == [] || b == [] || a[|a| - 1].Tag? || b[0].Tag?
    ensures WellFormed(a + b)
  {
    var ab := a + b;
    assert forall i :: 0 <= i < |ab| ==> ab[i] == if i < |a| then a[i] else b[i - |a|];
  }

  // ---- What a token list holds ----

  /** How many times the tag `name` occurs. */
  function CountTag(ts: seq<Token>, name: string): nat
  {
    if ts == [] then 0 else (if ts[0] == Tag(name) then 1 else 0) + CountTag(ts[1..], name)
  }

  /** The text directly after each occurrence of the tag `name`, in order;
      `""` where another tag or the end follows. */
  function Entries(ts: seq<Token>, name: string): seq<string>
  {
    if ts == [] then []
    else (if ts[0] == Tag(name) then [Following(ts[1..])] else []) + Entries(ts[1..], name)
  }

  function Following(ts: seq<Token>): string
  {
    if ts != [] && ts[0].Content? then ts[0].src else ""
  }

  lemma {:induction false} CountTagAppend(a: seq<Token>, b: seq<Token>, name: string)
    ensures CountTag(a + b, name) == CountTag(a, name) + CountTag(b, name)
  {
    if a == [] {
      assert a + b == b;
    } else {
      assert (a + b)[1..] == a[1..] + b;
      CountTagAppend(a[1..], b, name);
    }
  }

  lemma {:induction false} EntriesAppend(a: seq<Token>, b: seq<Token>, name: string)
    requires a == [] || a[|a| - 1] != Tag(name)
    ensures Entries(a + b, name) == Entries(a, name) + Entries(b, name)
  {
    if a == [] {
      assert a + b == b;
    } else {
      var ab := a + b;
      var head := if a[0] == Tag(name) then [Following(a[1..])] else [];
      assert ab != [] && ab[0] == a[0] && ab[1..] == a[1..] + b;
      if a[1..] != [] {
        assert Following(a[1..] + b) == Following(a[1..]);
      }
      assert Entries(ab, name) == head + Entries(a[1..] + b, name);
      EntriesAppend(a[1..], b, name);
      assert Entries(a, name) == head + Entries(a[1..], name);
      Seqs.ConcatAssoc(head, Entries(a[1..], name), Entries(b, name));
    }
  }

  lemma {:induction false} NoTag(ts: seq<Token>, name: string)
    requires forall i :: 0 <= i < |ts| ==> ts[i] != Tag(name)
    ensures CountTag(ts, name) == 0 && Entries(ts, name) == []
  {
    if ts != [] {
      NoTag(ts[1..], name);
    }
  }

  /** Every tag in `ts` is one of `names`. */
  predicate TagsAmong(ts: seq<Token>, names: set<string>)
  {
    forall i :: 0 <= i < |ts| && ts[i].Tag? ==> ts[i].src in names
  }

  lemma TagsAmongAppend(a: seq<Token>, b: seq<Token>, names: set<string>)
    requires TagsAmong(a, names) && TagsAmong(b, names)
    ensures TagsAmong(a + b, names)
  {
    var ab := a + b;
    assert forall i :: 0 <= i < |ab| ==> ab[i] == if i < |a| then a[i] else b[i - |a|];
  }

  /** Empty, or opening and closing with a tag. */
  predicate TagBounded(ts: seq<Token>)
  {
    ts == [] || (ts[0].Tag? && ts[|ts| - 1].Tag?)
  }

  // ---- Repeated elements ----

  /** A text run, or nothing for the empty string. */
  function TextToks(s: string): seq<Token>
  {
    if s == [] then [] else [Content(s)]
  }

  /** `open + c + close` for each `c` of `cs`, one after another. */
  function ElementsText(open: string, cs: seq<string>, close: string): string
  {
    if cs == [] then "" else open + cs[0] + close + ElementsText(open, cs[1..], close)
  }

  function Element(open: string, c: string, close: string): seq<Token>
  {
    [Tag(open)] + TextToks(c) + [Tag(close)]
  }

  function Elements(open: string, cs: seq<string>, close: string): seq<Token>
  {
    if cs == [] then [] else Element(open, cs[0], close) + Elements(open, cs[1..], close)
  }

  lemma ElementFacts(open: string, c: string, close: string)
    requires IsTag(open) && IsTag(close) && open != close && '<' !in c
    ensures WellFormed(Element(open, c, close))
    ensures Serialize(Element(open, c, close)) == open + c + close
    ensures Element(open, c, close)[0] == Tag(open)
    ensures Element(open, c, close)[|Element(open, c, close)| - 1] == Tag(close)
    ensures TagsAmong(Element(open, c, close), {open, close})
    ensures CountTag(Element(open, c, close), open) == 1
    ensures Entries(Element(open, c, close), open) == [c]
  {
    if c == [] {
      assert Element(open, c, close) == [Tag(open), Tag(close)];
      Push(Tag(close), [], open);
      assert [Tag(close)] == [Tag(close)] + [];
      Push(Tag(open), [Tag(close)], open);
    } else {
      ElementWithText(open, c, close);
    }
  }

  lemma ElementWithText(open: string, c: string, close: string)
    requires IsTag(open) && IsTag(close) && open != close && IsText(c)
    ensures WellFormed(Element(open, c, close))
    ensures Serialize(Element(open, c, close)) == open + c + close
    ensures Element(open, c, close) == [Tag(open), Content(c), Tag(close)]
    ensures CountTag(Element(open, c, close), open) == 1
    ensures Entries(Element(open, c, close), open) == [c]
  {
    var t2 := [Content(c)] + [Tag(close)];
    assert [Tag(close)] == [Tag(close)] + [];
    Push(Tag(close), [], open);
    Push(Content(c), [Tag(close)], open);
    Push(Tag(open), t2, open);
    assert Element(open, c, close) == [Tag(open)] + t2;
  }

  /** What the tokenizer sees in a run of elements: one `open` tag per entry,
      each followed by that entry's text, and no other tags. */
  lemma {:induction false} ElementsFacts(open: string, cs: seq<string>, close: string)
    requires IsTag(open) && IsTag(close) && open != close
    requires forall i :: 0 <= i < |cs| ==> '<' !in cs[i]
    ensures WellFormed(Elements(open, cs, close)) && TagBounded(Elements(open, cs, close))
    ensures Serialize(Elements(open, cs, close)) == ElementsText(open, cs, close)
    ensures TagsAmong(Elements(open, cs, close), {open, close})
    ensures CountTag(Elements(open, cs, close), open) == |cs|
    ensures Entries(Elements(open, cs, close), open) == cs
    ensures Elements(open, cs, close) == [] || Elements(open, cs, close)[|Elements(open, cs, close)| - 1] == Tag(close)
  {
    if cs != [] {
      var e, rest := Element(open, cs[0], close), Elements(open, cs[1..], close);
      ElementFacts(open, cs[0], close);
      ElementsFacts(open, cs[1..], close);
      WellFormedAppend(e, rest);
      SerializeAppend(e, rest);
      CountTagAppend(e, rest, open);
      EntriesAppend(e, rest, open);
      TagsAmongAppend(e, rest, {open, close});
      assert cs == [cs[0]] + cs[1..];
    }
  }

  lemma ElementsLacks(open: string, cs: seq<string>, close: string, name: string)
    requires IsTag(open) && IsTag(close) && open != close
    requires forall i :: 0 <= i < |cs| ==> '<' !in cs[i]
    requires name != open && name != close
    ensures Lacks(Elements(open, cs, close), name)
  {
    ElementsFacts(open, cs, close);
  }

  lemma NoTagAmong(ts: seq<Token>, names: set<string>, name: string)
    requires TagsAmong(ts, names) && name !in names
    ensures CountTag(ts, name) == 0 && Entries(ts, name) == []
  {
    NoTag(ts, name);
  }

  /** Two tag-bounded well-formed fragments written one after the other. */
  lemma Glue(a: seq<Token>, b: seq<Token>)
    requires WellFormed(a) && WellFormed(b) && TagBounded(a) && TagBounded(b)
    ensures WellFormed(a + b) && TagBounded(a + b)
    ensures Serialize(a + b) == Serialize(a) + Serialize(b)
  {
    WellFormedAppend(a, b);
    SerializeAppend(a, b);
    if a == [] {
      assert a + b == b;
    } else if b == [] {
      assert a + b == a;
    }
  }

  /** What the tokenizer reads from two fragments written one after the
      other, for one tag name. */
  lemma GlueReads(a: seq<Token>, b: seq<Token>, name: string)
    requires a == [] || a[|a| - 1] != Tag(name)
    ensures CountTag(a + b, name) == CountTag(a, name) + CountTag(b, name)
    ensures Entries(a + b, name) == Entries(a, name) + Entries(b, name)
  {
    CountTagAppend(a, b, name);
    EntriesAppend(a, b, name);
  }

  /** A lone tag. */
  lemma TagFacts(t: string)
    requires IsTag(t)
    ensures WellFormed([Tag(t)]) && TagBounded([Tag(t)]) && Serialize([Tag(t)]) == t
    ensures forall name :: CountTag([Tag(t)], name) == (if name == t then 1 else 0)
    ensures forall name :: Entries([Tag(t)], name) == (if name == t then [""] else [])
  {
  }

  lemma TagPair(a: string, b: string)
    requires IsTag(a) && IsTag(b)
    ensures WellFormed([Tag(a), Tag(b)]) && TagBounded([Tag(a), Tag(b)])
    ensures Serialize([Tag(a), Tag(b)]) == a + b
  {
    assert [Tag(a), Tag(b)][1..] == [Tag(b)];
    assert Serialize([Tag(b)]) == b + "" == b;
  }

  lemma TagTriple(a: string, b: string, c: string)
    requires IsTag(a) && IsTag(b) && IsTag(c)
    ensures WellFormed([Tag(a), Tag(b), Tag(c)]) && TagBounded([Tag(a), Tag(b), Tag(c)])
    ensures Serialize([Tag(a), Tag(b), Tag(c)]) == a + b + c
  {
    assert [Tag(a), Tag(b), Tag(c)][1..] == [Tag(b), Tag(c)];
    TagPair(b, c);
    assert a + (b + c) == a + b + c;
  }

  // ---- Fragments made of parts ----

  /** The parts written one after another. */
  function Join(parts: seq<seq<Token>>): seq<Token>
  {
    if parts == [] then [] else parts[0] + Join(parts[1..])
  }

  function SerializeAll(parts: seq<seq<Token>>): string
  {
    if parts == [] then "" else Serialize(parts[0]) + SerializeAll(parts[1..])
  }

  /** The tag `name` does not occur. */
  predicate Lacks(ts: seq<Token>, name: string)
  {
    forall i :: 0 <= i < |ts| ==> ts[i] != Tag(name)
  }

  lemma LacksAmong(ts: seq<Token>, names: set<string>, name: string)
    requires TagsAmong(ts, names) && name !in names
    ensures Lacks(ts, name)
  {
  }

  /** Does not end with the tag `name`, so the text after its last tag is its
      own. */
  predicate EndsOff(ts: seq<Token>, name: string)
  {
    ts == [] || ts[|ts| - 1] != Tag(name)
  }

  lemma EndsOffAppend(a: seq<Token>, b: seq<Token>, name: string)
    requires EndsOff(a, name) && EndsOff(b, name)
    ensures EndsOff(a + b, name)
  {
    if b != [] {
      assert (a + b)[|a + b| - 1] == b[|b| - 1];
    }
  }

  lemma {:induction false} JoinShape(parts: seq<seq<Token>>)
    requires forall i :: 0 <= i < |parts| ==> WellFormed(parts[i]) && TagBounded(parts[i])
    ensures WellFormed(Join(parts)) && TagBounded(Join(parts))
    ensures Serialize(Join(parts)) == SerializeAll(parts)
  {
    if parts != [] {
      JoinShape(parts[1..]);
      Glue(parts[0], Join(parts[1..]));
    }
  }

  /** When only part `k` can hold the tag `name`, the whole reads as part `k`
      does. */
  lemma {:induction false} JoinOnly(parts: seq<seq<Token>>, k: nat, name: string)
    requires k < |parts| && EndsOff(parts[k], name)
    requires forall i :: 0 <= i < |parts| && i != k ==> Lacks(parts[i], name)
    ensures CountTag(Join(parts), name) == CountTag(parts[k], name)
    ensures Entries(Join(parts), name) == Entries(parts[k], name)
  {
    var rest := Join(parts[1..]);
    if k == 0 {
      assert forall i :: 0 <= i < |parts[1..]| ==> Lacks(parts[1..][i], name) by {
        assert forall i :: 0 <= i < |parts[1..]| ==> parts[1..][i] == parts[i + 1];
      }
      JoinLacks(parts[1..], name);
      NoTag(rest, name);
      GlueReads(parts[0], rest, name);
    } else {
      assert forall i :: 0 <= i < |parts[1..]| && i != k - 1 ==> Lacks(parts[1..][i], name) by {
        assert forall i :: 0 <= i < |parts[1..]| ==> parts[1..][i] == parts[i + 1];
      }
      JoinOnly(parts[1..], k - 1, name);
      NoTag(parts[0], name);
      GlueReads(parts[0], rest, name);
    }
  }

  lemma {:induction false} JoinLacks(parts: seq<seq<Token>>, name: string)
    requires forall i :: 0 <= i < |parts| ==> Lacks(parts[i], name)
    ensures Lacks(Join(parts), name)
  {
    if parts != [] {
      assert forall i :: 0 <= i < |parts[1..]| ==> parts[1..][i] == parts[i + 1];
      JoinLacks(parts[1..], name);
      var a, b := parts[0], Join(parts[1..]);
      assert forall i :: 0 <= i < |a + b| ==> (a + b)[i] == if i < |a| then a[i] else b[i - |a|];
    }
  }

  lemma SerializeAllCons(a: seq<Token>, rest: seq<seq<Token>>)
    ensures SerializeAll([a] + rest) == Serialize(a) + SerializeAll(rest)
  {
    assert ([a] + rest)[1..] == rest;
  }

  lemma SerializeAll4(a: seq<Token>, b: seq<Token>, c: seq<Token>, d: seq<Token>)
    ensures SerializeAll([a, b, c, d]) == Serialize(a) + (Serialize(b) + (Serialize(c) + Serialize(d)))
  {
    assert [a, b, c, d] == [a] + [b, c, d];
    assert [b, c, d] == [b] + [c, d];
    assert [c, d] == [c] + [d];
    assert [d] == [d] + [];
    SerializeAllCons(a, [b, c, d]);
    SerializeAllCons(b, [c, d]);
    SerializeAllCons(c, [d]);
    SerializeAllCons(d, []);
  }

  lemma SerializeAll6(a: seq<Token>, b: seq<Token>, c: seq<Token>, d: seq<Token>, e: seq<Token>, f: seq<Token>)
    ensures SerializeAll([a, b, c, d, e, f])
         == Serialize(a) + (Serialize(b) + (Serialize(c) + (Serialize(d) + (Serialize(e) + Serialize(f)))))
  {
    assert [a, b, c, d, e, f] == [a] + [b, c, d, e, f];
    assert [b, c, d, e, f] == [b] + [c, d, e, f];
    SerializeAllCons(a, [b, c, d, e, f]);
    SerializeAllCons(b, [c, d, e, f]);
    SerializeAll4(c, d, e, f);
  }

  lemma SerializeAll8(a: seq<Token>, b: seq<Token>, c: seq<Token>, d: seq<Token>,
                      e: seq<Token>, f: seq<Token>, g: seq<Token>, h: seq<Token>)
    ensures SerializeAll([a, b, c, d, e, f, g, h])
         == Serialize(a) + (Serialize(b) + (Serialize(c) + (Serialize(d)
          + (Serialize(e) + (Serialize(f) + (Serialize(g) + Serialize(h)))))))
  {
    assert [a, b, c, d, e, f, g, h] == [a] + [b, c, d, e, f, g, h];
    assert [b, c, d, e, f, g, h] == [b] + [c, d, e, f, g, h];
    SerializeAllCons(a, [b, c, d, e, f, g, h]);
    SerializeAllCons(b, [c, d, e, f, g, h]);
    SerializeAll6(c, d, e, f, g, h);
  }

  /** What each part shows after the tag `name`, part after part. */
  function EntriesAll(parts: seq<seq<Token>>, name: string): seq<string>
  {
    if parts == [] then [] else Entries(parts[0], name) + EntriesAll(parts[1..], name)
  }

  /** When no part ends with the tag `name`, the whole reads as its parts do,
      one after the other. */
  lemma {:induction false} JoinEntries(parts: seq<seq<Token>>, name: string)
    requires forall i :: 0 <= i < |parts| ==> EndsOff(parts[i], name)
    ensures Entries(Join(parts), name) == EntriesAll(parts, name)
  {
    if parts != [] {
      assert forall i :: 0 <= i < |parts[1..]| ==> parts[1..][i] == parts[i + 1];
      JoinEntries(parts[1..], name);
      GlueReads(parts[0], Join(parts[1..]), name);
    }
  }

  lemma EntriesAllCons(a: seq<Token>, rest: seq<seq<Token>>, name: string)
    ensures EntriesAll([a] + rest, name) == Entries(a, name) + EntriesAll(rest, name)
  {
    assert ([a] + rest)[1..] == rest;
  }

  lemma EntriesAll6(a: seq<Token>, b: seq<Token>, c: seq<Token>, d: seq<Token>, e: seq<Token>, f: seq<Token>,
                    name: string)
    ensures EntriesAll([a, b, c, d, e, f], name)
         == Entries(a, name) + (Entries(b, name) + (Entries(c, name) + (Entries(d, name)
          + (Entries(e, name) + Entries(f, name)))))
  {
    assert [a, b, c, d, e, f] == [a] + [b, c, d, e, f];
    assert [b, c, d, e, f] == [b] + [c, d, e, f];
    assert [c, d, e, f] == [c] + [d, e, f];
    assert [d, e, f] == [d] + [e, f];
    assert [e, f] == [e] + [f];
    assert [f] == [f] + [];
    EntriesAllCons(a, [b, c, d, e, f], name);
    EntriesAllCons(b, [c, d, e, f], name);
    EntriesAllCons(c, [d, e, f], name);
    EntriesAllCons(d, [e, f], name);
    EntriesAllCons(e, [f], name);
    EntriesAllCons(f, [], name);
  }

  lemma Entries6(a: seq<Token>, b: seq<Token>, c: seq<Token>, d: seq<Token>, e: seq<Token>, f: seq<Token>,
                 name: string)
    requires EndsOff(a, name) && EndsOff(b, name) && EndsOff(c, name)
    requires EndsOff(d, name) && EndsOff(e, name) && EndsOff(f, name)
    ensures Entries(Join([a, b, c, d, e, f]), name)
         == Entries(a, name) + (Entries(b, name) + (Entries(c, name) + (Entries(d, name)
          + (Entries(e, name) + Entries(f, name)))))
  {
    var ps := [a, b, c, d, e, f];
    forall i | 0 <= i < |ps| ensures EndsOff(ps[i], name) {
      if i == 0 { assert ps[i] == a; }
      else if i == 1 { assert ps[i] == b; }
      else if i == 2 { assert ps[i] == c; }
      else if i == 3 { assert ps[i] == d; }
      else if i == 4 { assert ps[i] == e; }
      else { assert ps[i] == f; }
    }
    JoinEntries(ps, name);
    EntriesAll6(a, b, c, d, e, f, name);
  }

  /** A whole whose last part ends with a tag other than `name` ends the
      same way. */
  lemma {:induction false} JoinEndsOff(parts: seq<seq<Token>>, name: string)
    requires parts != [] && parts[|parts| - 1] != [] && EndsOff(parts[|parts| - 1], name)
    ensures Join(parts) != [] && EndsOff(Join(parts), name)
  {
    if |parts| == 1 {
      assert Join(parts) == parts[0] + Join([]);
      assert Join(parts) == parts[0];
    } else {
      var rest := parts[1..];
      assert rest[|rest| - 1] == parts[|parts| - 1];
      JoinEndsOff(rest, name);
      var all := parts[0] + Join(rest);
      assert all[|all| - 1] == Join(rest)[|Join(rest)| - 1];
    }
  }

  lemma LacksTag(t: string, name: string)
    requires t != name
    ensures Lacks([Tag(t)], name) && EndsOff([Tag(t)], name)
  {
  }

  /** `JoinOnly` for four parts, with the part holding the tag chosen by `k`. */
  lemma Only4(a: seq<Token>, b: seq<Token>, c: seq<Token>, d: seq<Token>, k: nat, name: string)
    requires k < 4 && EndsOff([a, b, c, d][k], name)
    requires (k == 0 || Lacks(a, name)) && (k == 1 || Lacks(b, name))
    requires (k == 2 || Lacks(c, name)) && (k == 3 || Lacks(d, name))
    ensures CountTag(Join([a, b, c, d]), name) == CountTag([a, b, c, d][k], name)
    ensures Entries(Join([a, b, c, d]), name) == Entries([a, b, c, d][k], name)
  {
    var ps := [a, b, c, d];
    forall i | 0 <= i < |ps| && i != k ensures Lacks(ps[i], name) {
      if i == 0 { assert ps[i] == a; }
      else if i == 1 { assert ps[i] == b; }
      else if i == 2 { assert ps[i] == c; }
      else { assert ps[i] == d; }
    }
    JoinOnly(ps, k, name);
  }

  lemma Only6(a: seq<Token>, b: seq<Token>, c: seq<Token>, d: seq<Token>, e: seq<Token>, f: seq<Token>,
              k: nat, name: string)
    requires k < 6 && EndsOff([a, b, c, d, e, f][k], name)
    requires (k == 0 || Lacks(a, name)) && (k == 1 || Lacks(b, name)) && (k == 2 || Lacks(c, name))
    requires (k == 3 || Lacks(d, name)) && (k == 4 || Lacks(e, name)) && (k == 5 || Lacks(f, name))
    ensures CountTag(Join([a, b, c, d, e, f]), name) == CountTag([a, b, c, d, e, f][k], name)
    ensures Entries(Join([a, b, c, d, e, f]), name) == Entries([a, b, c, d, e, f][k], name)
  {
    var ps := [a, b, c, d, e, f];
    forall i | 0 <= i < |ps| && i != k ensures Lacks(ps[i], name) {
      if i == 0 { assert ps[i] == a; }
      else if i == 1 { assert ps[i] == b; }
      else if i == 2 { assert ps[i] == c; }
      else if i == 3 { assert ps[i] == d; }
      else if i == 4 { assert ps[i] == e; }
      else { assert ps[i] == f; }
    }
    JoinOnly(ps, k, name);
  }

  lemma Only8(a: seq<Token>, b: seq<Token>, c: seq<Token>, d: seq<Token>,
              e: seq<Token>, f: seq<Token>, g: seq<Token>, h: seq<Token>, k: nat, name: string)
    requires k < 8 && EndsOff([a, b, c, d, e, f, g, h][k], name)
    requires (k == 0 || Lacks(a, name)) && (k == 1 || Lacks(b, name)) && (k == 2 || Lacks(c, name))
    requires (k == 3 || Lacks(d, name)) && (k == 4 || Lacks(e, name)) && (k == 5 || Lacks(f, name))
    requires (k == 6 || Lacks(g, name)) && (k == 7 || Lacks(h, name))
    ensures CountTag(Join([a, b, c, d, e, f, g, h]), name) == CountTag([a, b, c, d, e, f, g, h][k], name)
    ensures Entries(Join([a, b, c, d, e, f, g, h]), name) == Entries([a, b, c, d, e, f, g, h][k], name)
  {
    var ps := [a, b, c, d, e, f, g, h];
    forall i | 0 <= i < |ps| && i != k ensures Lacks(ps[i], name) {
      if i == 0 { assert ps[i] == a; }
      else if i == 1 { assert ps[i] == b; }
      else if i == 2 { assert ps[i] == c; }
      else if i == 3 { assert ps[i] == d; }
      else if i == 4 { assert ps[i] == e; }
      else if i == 5 { assert ps[i] == f; }
      else if i == 6 { assert ps[i] == g; }
      else { assert ps[i] == h; }
    }
    JoinOnly(ps, k, name);
  }

  /** How often the tag `name` occurs in each part, added up. */
  function CountAll(parts: seq<seq<Token>>, name: string): nat
  {
    if parts == [] then 0 else CountTag(parts[0], name) + CountAll(parts[1..], name)
  }

  lemma {:induction false} JoinCount(parts: seq<seq<Token>>, name: string)
    ensures CountTag(Join(parts), name) == CountAll(parts, name)
  {
    if parts != [] {
      JoinCount(parts[1..], name);
      CountTagAppend(parts[0], Join(parts[1..]), name);
    }
  }

  lemma CountAllCons(a: seq<Token>, rest: seq<seq<Token>>, name: string)
    ensures CountAll([a] + rest, name) == CountTag(a, name) + CountAll(rest, name)
  {
    assert ([a] + rest)[1..] == rest;
  }

  lemma CountAll8(a: seq<Token>, b: seq<Token>, c: seq<Token>, d: seq<Token>,
                  e: seq<Token>, f: seq<Token>, g: seq<Token>, h: seq<Token>, name: string)
    ensures CountAll([a, b, c, d, e, f, g, h], name)
         == CountTag(a, name) + CountTag(b, name) + CountTag(c, name) + CountTag(d, name)
          + CountTag(e, name) + CountTag(f, name) + CountTag(g, name) + CountTag(h, name)
  {
    assert [a, b, c, d, e, f, g, h] == [a] + [b, c, d, e, f, g, h];
    assert [b, c, d, e, f, g, h] == [b] + [c, d, e, f, g, h];
    assert [c, d, e, f, g, h] == [c] + [d, e, f, g, h];
    assert [d, e, f, g, h] == [d] + [e, f, g, h];
    assert [e, f, g, h] == [e] + [f, g, h];
    assert [f, g, h] == [f] + [g, h];
    assert [g, h] == [g] + [h];
    assert [h] == [h] + [];
    CountAllCons(a, [b, c, d, e, f, g, h], name);
    CountAllCons(b, [c, d, e, f, g, h], name);
    CountAllCons(c, [d, e, f, g, h], name);
    CountAllCons(d, [e, f, g, h], name);
    CountAllCons(e, [f, g, h], name);
    CountAllCons(f, [g, h], name);
    CountAllCons(g, [h], name);
    CountAllCons(h, [], name);
  }

  lemma LacksCount(ts: seq<Token>, name: string)
    requires Lacks(ts, name)
    ensures CountTag(ts, name) == 0
  {
    NoTag(ts, name);
  }

  lemma LacksPair(a: string, b: string, name: string)
    requires a != name && b != name
    ensures Lacks([Tag(a), Tag(b)], name) && EndsOff([Tag(a), Tag(b)], name)
  {
  }

  lemma LacksTriple(a: string, b: string, c: string, name: string)
    requires a != name && b != name && c != name
    ensures Lacks([Tag(a), Tag(b), Tag(c)], name) && EndsOff([Tag(a), Tag(b), Tag(c)], name)
  {
  }

  lemma LacksAppend(a: seq<Token>, b: seq<Token>, name: string)
    requires Lacks(a, name) && Lacks(b, name)
    ensures Lacks(a + b, name)
  {
    var ab := a + b;
    assert forall i :: 0 <= i < |ab| ==> ab[i] == if i < |a| then a[i] else b[i - |a|];
  }

  lemma CountLastOfThree(a: string, b: string, c: string)
    requires a != c && b != c
    ensures CountTag([Tag(a), Tag(b), Tag(c)], c) == 1
  {
    var p := [Tag(a), Tag(b), Tag(c)];
    assert p[1..] == [Tag(b), Tag(c)];
    assert p[1..][1..] == [Tag(c)];
    assert CountTag([Tag(c)], c) == 1 by {
      assert [Tag(c)][1..] == [];
    }
    assert CountTag([Tag(b), Tag(c)], c) == 1;
  }

  /** Two tags, a text, a tag, a text, a tag: the shape of a labelled
      bullet. */
  /** One token in front of a list, unfolded once for each reading. */
  lemma Push(t: Token, rest: seq<Token>, name: string)
    ensures Serialize([t] + rest) == t.src + Serialize(rest)
    ensures CountTag([t] + rest, name) == (if t == Tag(name) then 1 else 0) + CountTag(rest, name)
    ensures Entries([t] + rest, name) == (if t == Tag(name) then [Following(rest)] else []) + Entries(rest, name)
  {
    assert ([t] + rest)[1..] == rest;
  }

  /** `a b x c y d`: an item whose two text runs follow the tags `b` and `c`. */
  function Labelled(a: string, b: string, x: string, c: string, y: string, d: string): seq<Token>
  {
    [Tag(a)] + ([Tag(b)] + ([Content(x)] + ([Tag(c)] + ([Content(y)] + [Tag(d)]))))
  }

  lemma LabelledShape(a: string, b: string, x: string, c: string, y: string, d: string)
    requires IsTag(a) && IsTag(b) && IsTag(c) && IsTag(d) && IsText(x) && IsText(y)
    ensures WellFormed(Labelled(a, b, x, c, y, d)) && TagBounded(Labelled(a, b, x, c, y, d))
    ensures Serialize(Labelled(a, b, x, c, y, d)) == a + b + x + c + y + d
  {
    LabelledText(a, b, x, c, y, d);
    LabelledWellFormed(a, b, x, c, y, d);
  }

  lemma LabelledText(a: string, b: string, x: string, c: string, y: string, d: string)
    ensures Serialize(Labelled(a, b, x, c, y, d)) == a + b + x + c + y + d
  {
    var t4 := [Content(y)] + [Tag(d)];
    var t3 := [Tag(c)] + t4;
    var t2 := [Content(x)] + t3;
    var t1 := [Tag(b)] + t2;
    Push(Tag(d), [], a);
    assert [Tag(d)] == [Tag(d)] + [];
    Push(Content(y), [Tag(d)], a);
    Push(Tag(c), t4, a);
    Push(Content(x), t3, a);
    Push(Tag(b), t2, a);
    Push(Tag(a), t1, a);
  }

  lemma LabelledWellFormed(a: string, b: string, x: string, c: string, y: string, d: string)
    requires IsTag(a) && IsTag(b) && IsTag(c) && IsTag(d) && IsText(x) && IsText(y)
    ensures WellFormed(Labelled(a, b, x, c, y, d)) && TagBounded(Labelled(a, b, x, c, y, d))
  {
    assert Labelled(a, b, x, c, y, d) == [Tag(a), Tag(b), Content(x), Tag(c), Content(y), Tag(d)];
  }

  lemma LabelledReads(a: string, b: string, x: string, c: string, y: string, d: string)
    requires a != b && a != c && a != d && b != c && b != d && c != d
    ensures CountTag(Labelled(a, b, x, c, y, d), a) == 1
    ensures Entries(Labelled(a, b, x, c, y, d), b) == [x]
    ensures Entries(Labelled(a, b, x, c, y, d), c) == [y]
    ensures EndsOff(Labelled(a, b, x, c, y, d), a) && EndsOff(Labelled(a, b, x, c, y, d), b)
    ensures EndsOff(Labelled(a, b, x, c, y, d), c)
  {
    var t4 := [Content(y)] + [Tag(d)];
    var t3 := [Tag(c)] + t4;
    var t2 := [Content(x)] + t3;
    var t1 := [Tag(b)] + t2;
    assert [Tag(d)] == [Tag(d)] + [];
    Push(Tag(d), [], a);
    Push(Content(y), [Tag(d)], a);
    Push(Tag(c), t4, a);
    Push(Content(x), t3, a);
    Push(Tag(b), t2, a);
    Push(Tag(a), t1, a);
    assert Entries(t1, b) == [x] by {
      Push(Tag(d), [], b);
      Push(Content(y), [Tag(d)], b);
      Push(Tag(c), t4, b);
      Push(Content(x), t3, b);
      Push(Tag(b), t2, b);
    }
    assert Entries(t3, c) == [y] by {
      Push(Tag(d), [], c);
      Push(Content(y), [Tag(d)], c);
      Push(Tag(c), t4, c);
    }
    Push(Content(x), t3, c);
    Push(Tag(b), t2, c);
    Push(Tag(a), t1, b);
    Push(Tag(a), t1, c);
  }

  lemma LabelledLacks(a: string, b: string, x: string, c: string, y: string, d: string, name: string)
    requires name != a && name != b && name != c && name != d
    ensures Lacks(Labelled(a, b, x, c, y, d), name)
  {
  }
}
