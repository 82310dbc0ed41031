/**
 * JavaScript strings as the sequences of UTF-16 code units they are, and the
 * set of code units that `String.prototype.trim`, the regular-expression class
 * `\s` and `parseInt` treat as white space (WhiteSpace and LineTerminator of
 * ECMA-262, sections 12.2 and 12.3, with the Unicode "Zs" category written out).
 */
module JsStrings {

  newtype CodeUnit = x: int | 0 <= x < 0x1_0000

  type JsString = seq<CodeUnit>

  const SPACE: CodeUnit := 0x20

  predicate IsWhiteSpace(c: CodeUnit) {
    // WhiteSpace: TAB, VT, FF, ZWNBSP and the Zs category
    || c == 0x09 || c == 0x0B || c == 0x0C || c == 0xFEFF
    || c == 0x20 || c == 0xA0 || c == 0x1680 || (0x2000 <= c <= 0x200A)
    || c == 0x202F || c == 0x205F || c == 0x3000
    // LineTerminator: LF, CR, LS, PS
    || c == 0x0A || c == 0x0D || c == 0x2028 || c == 0x2029
  }

  /** The code units of a string literal whose characters all lie in the Basic Multilingual Plane. */
  function Units(s: string): (r: JsString)
    ensures |r| == |s|
    ensures forall i :: 0 <= i < |s| && (s[i] as int) < 0x1_0000 ==> r[i] as int == s[i] as int
  {
    seq(|s|, i requires 0 <= i < |s| => if (s[i] as int) < 0x1_0000 then (s[i] as int) as CodeUnit else 0xFFFD)
  }

  /** `trimStart`: the string without its leading white space. */
  function TrimStart(s: JsString): (r: JsString)
    ensures |r| <= |s| && r == s[|s| - |r|..]
    ensures forall j :: 0 <= j < |s| - |r| ==> IsWhiteSpace(s[j])
    ensures r == [] || !IsWhiteSpace(r[0])
  {
    if s == [] || !IsWhiteSpace(s[0]) then s else TrimStart(s[1..])
  }

  /** `trimEnd`: the string without its trailing white space. */
  function TrimEnd(s: JsString): (r: JsString)
    ensures |r| <= |s| && r == s[..|r|]
    ensures forall j :: |r| <= j < |s| ==> IsWhiteSpace(s[j])
    ensures r == [] || !IsWhiteSpace(r[|r| - 1])
  {
    if s == [] || !IsWhiteSpace(s[|s| - 1]) then s else TrimEnd(s[..|s| - 1])
  }

  /** `String.prototype.trim`. */
  function Trim(s: JsString): JsString {
    TrimEnd(TrimStart(s))
  }

  /** Nothing but white space. */
  predicate Blank(s: JsString) {
    forall j :: 0 <= j < |s| ==> IsWhiteSpace(s[j])
  }

  /** The only white space is single spaces: no other white space, and no two in a row. */
  predicate SingleSpaced(s: JsString) {
    && (forall i :: 0 <= i < |s| && IsWhiteSpace(s[i]) ==> s[i] == SPACE)
    && (forall i :: 0 <= i < |s| - 1 ==> !(IsWhiteSpace(s[i]) && IsWhiteSpace(s[i + 1])))
  }

  /** Every prefix of a single-spaced string is single-spaced. */
  lemma SingleSpacedPrefix(s: JsString, n: nat)
    requires SingleSpaced(s) && n <= |s|
    ensures SingleSpaced(s[..n])
  {
    assert forall i :: 0 <= i < n ==> s[..n][i] == s[i];
  }

  /** Trimming leaves nothing exactly when the string is blank. */
  lemma TrimBlank(s: JsString)
    ensures Trim(s) == [] <==> Blank(s)
  {
    var t := TrimStart(s);
    if t != [] {
      assert t[0] == s[|s| - |t|];
      assert |TrimEnd(t)| > 0;
    }
  }

  /** No white space at all: a single word. */
  predicate NoWhiteSpace(s: JsString) {
    forall j :: 0 <= j < |s| ==> !IsWhiteSpace(s[j])
  }

  /** `trimStart` drops exactly the first `k` code units when they are the white space in front of the first other one. */
  lemma TrimStartAt(s: JsString, k: nat)
    requires k <= |s| && forall j :: 0 <= j < k ==> IsWhiteSpace(s[j])
    requires k == |s| || !IsWhiteSpace(s[k])
    ensures TrimStart(s) == s[k..]
  {
  }

  /** White space in front of a word, or of nothing, is all that `trimStart` drops. */
  lemma TrimStartAfterBlank(w: JsString, s: JsString)
    requires Blank(w)
    requires s == [] || !IsWhiteSpace(s[0])
    ensures TrimStart(w + s) == s
  {
    TrimStartAt(w + s, |w|);
    assert (w + s)[|w|..] == s;
  }

  /** When `a` is not blank, `trimStart` stops inside it. */
  lemma TrimStartAppend(a: JsString, s: JsString)
    requires !Blank(a)
    ensures TrimStart(a + s) == TrimStart(a) + s
  {
    var t := TrimStart(a);
    var k := |a| - |t|;
    assert forall j :: 0 <= j < k ==> (a + s)[j] == a[j];
    assert (a + s)[k] == t[0];
    TrimStartAt(a + s, k);
    assert (a + s)[k..] == t + s;
  }

  /** `trimEnd` keeps exactly the first `k` code units when only white space follows the last of them. */
  lemma TrimEndAt(s: JsString, k: nat)
    requires k <= |s| && forall j :: k <= j < |s| ==> IsWhiteSpace(s[j])
    requires k == 0 || !IsWhiteSpace(s[k - 1])
    ensures TrimEnd(s) == s[..k]
  {
  }

  /** The code units of `s` that are not white space, in order. */
  function Letters(s: JsString): JsString {
    if s == [] then []
    else if IsWhiteSpace(s[|s| - 1]) then Letters(s[..|s| - 1])
    else Letters(s[..|s| - 1]) + [s[|s| - 1]]
  }

  lemma {:induction false} LettersAppend(a: JsString, b: JsString)
    ensures Letters(a + b) == Letters(a) + Letters(b)
  {
    if b != [] {
      assert (a + b)[..|a + b| - 1] == a + b[..|b| - 1];
      LettersAppend(a, b[..|b| - 1]);
    } else {
      assert a + b == a;
    }
  }

  /** A string made of white space only has no letters. */
  lemma {:induction false} LettersOfBlank(s: JsString)
    requires forall j :: 0 <= j < |s| ==> IsWhiteSpace(s[j])
    ensures Letters(s) == []
  {
    if s != [] {
      LettersOfBlank(s[..|s| - 1]);
    }
  }

  /** Dropping leading white space keeps the letters. */
  lemma TrimStartKeepsLetters(s: JsString)
    ensures Letters(TrimStart(s)) == Letters(s)
  {
    var t := TrimStart(s);
    var w := s[..|s| - |t|];
    assert s == w + t;
    LettersOfBlank(w);
    LettersAppend(w, t);
  }

  /** Dropping trailing white space keeps the letters. */
  lemma TrimEndKeepsLetters(s: JsString)
    ensures Letters(TrimEnd(s)) == Letters(s)
  {
    var r := TrimEnd(s);
    var w := s[|r|..];
    assert s == r + w;
    LettersOfBlank(w);
    LettersAppend(r, w);
  }

  /** Trimming removes white space only. */
  lemma TrimKeepsLetters(s: JsString)
    ensures Letters(Trim(s)) == Letters(s)
  {
    TrimStartKeepsLetters(s);
    TrimEndKeepsLetters(TrimStart(s));
  }

  /**
   * `replace(/\s+/g, " ")`: every maximal run of white space becomes one
   * space.
   */
  function Collapse(s: JsString): (r: JsString)
    decreases |s|
  {
    if s == [] then []
    else if IsWhiteSpace(s[0]) then [SPACE] + Collapse(TrimStart(s))
    else [s[0]] + Collapse(s[1..])
  }

  /** No white space other than single spaces is left, and a string starting with a letter still does. */
  lemma {:induction false} CollapseShape(s: JsString)
    ensures SingleSpaced(Collapse(s))
    ensures s != [] && !IsWhiteSpace(s[0]) ==> Collapse(s) != [] && Collapse(s)[0] == s[0]
    ensures s != [] ==> Collapse(s) != []
  {
    if s != [] {
      if IsWhiteSpace(s[0]) {
        var t := TrimStart(s);
        CollapseShape(t);
        var r := Collapse(s);
        assert r == [SPACE] + Collapse(t);
      } else {
        CollapseShape(s[1..]);
      }
    }
  }

  /** A word has no white-space run, so collapsing leaves it as it is. */
  lemma {:induction false} CollapseWord(s: JsString)
    requires NoWhiteSpace(s)
    ensures Collapse(s) == s
  {
    if s != [] {
      CollapseWord(s[1..]);
    }
  }

  /** A white-space run in front of a word, or at the end, becomes one space. */
  lemma CollapseRun(w: JsString, s: JsString)
    requires w != [] && Blank(w)
    requires s == [] || !IsWhiteSpace(s[0])
    ensures Collapse(w + s) == [SPACE] + Collapse(s)
  {
    TrimStartAfterBlank(w, s);
  }

  /**
   * Collapsing works piece by piece wherever the cut does not fall inside a
   * white-space run. With `CollapseWord` and `CollapseRun` this fixes
   * `Collapse` on every string, as a string is words and runs in turn.
   */
  lemma {:induction false} CollapseAppend(a: JsString, s: JsString)
    requires a == [] || s == [] || !IsWhiteSpace(a[|a| - 1]) || !IsWhiteSpace(s[0])
    ensures Collapse(a + s) == Collapse(a) + Collapse(s)
    decreases |a|
  {
    if a == [] {
      assert a + s == s;
    } else if !IsWhiteSpace(a[0]) {
      assert (a + s)[1..] == a[1..] + s;
      CollapseAppend(a[1..], s);
    } else if Blank(a) {
      TrimStartAfterBlank(a, s);
    } else {
      TrimStartAppend(a, s);
      CollapseAppend(TrimStart(a), s);
    }
  }

  /** The white-space run between two words becomes exactly one space. */
  lemma CollapseJoin(a: JsString, w: JsString, b: JsString)
    requires a != [] && !IsWhiteSpace(a[|a| - 1])
    requires w != [] && Blank(w)
    requires b == [] || !IsWhiteSpace(b[0])
    ensures Collapse(a + w + b) == Collapse(a) + [SPACE] + Collapse(b)
  {
    assert a + w + b == a + (w + b);
    CollapseAppend(a, w + b);
    CollapseRun(w, b);
  }

  /** Collapsing changes white space only: the letters stay, in order. */
  lemma {:induction false} CollapseKeepsLetters(s: JsString)
    ensures Letters(Collapse(s)) == Letters(s)
    decreases |s|
  {
    if s != [] {
      if IsWhiteSpace(s[0]) {
        var t := TrimStart(s);
        CollapseKeepsLetters(t);
        TrimStartKeepsLetters(s);
        LettersAppend([SPACE], Collapse(t));
        assert Letters([SPACE]) == [] by {
          assert [SPACE][..0] == [];
        }
      } else {
        CollapseKeepsLetters(s[1..]);
        assert s == [s[0]] + s[1..];
        LettersAppend([s[0]], s[1..]);
        LettersAppend([s[0]], Collapse(s[1..]));
        assert Letters([s[0]]) == [s[0]] by {
          assert [s[0]][..0] == [];
        }
      }
    }
  }

  /** The letters of a prefix are a prefix of the letters. */
  lemma LettersOfPrefix(s: JsString, n: nat)
    requires n <= |s|
    ensures Letters(s[..n]) <= Letters(s)
  {
    assert s == s[..n] + s[n..];
    LettersAppend(s[..n], s[n..]);
  }
}
