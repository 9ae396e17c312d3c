/**
 * The two text normalisers of the news server: `cleanText`, applied to titles and
 * descriptions, and `cleanPubDate`, applied to the raw publication date.
 * Each regular-expression replacement is one function that scans the string left
 * to right the way a global `replace` does.
 */
module TextClean {
  import opened JsValues

  /** The JavaScript `\s` class, which is also what `String.prototype.trim` strips:
      the WhiteSpace and LineTerminator code points of ECMAScript. */
  predicate IsWs(c: char)
  {
    var n := c as int;
    (9 <= n <= 13) || n == 0x20 || n == 0xA0 || n == 0x1680 || (0x2000 <= n <= 0x200A)
    || n == 0x2028 || n == 0x2029 || n == 0x202F || n == 0x205F || n == 0x3000 || n == 0xFEFF
  }

  // ---------------------------------------------------------------- shapes

  /** No `<` is followed, anywhere later, by a `>`: no complete tag is left. */
  predicate NoTag(s: string)
  {
    forall i, j :: 0 <= i < j < |s| && s[i] == '<' ==> s[j] != '>'
  }

  /** `c` matches the lower-case pattern letter `p` under the `i` flag (ASCII folding only). */
  predicate CharCi(c: char, p: char)
  {
    c == p || ('a' <= p <= 'z' && c as int == p as int - 32)
  }

  /** The six characters of `s` from position `i` spell `&nbsp;` in some letter case. */
  predicate NbspAt(s: string, i: int)
  {
    0 <= i && i + 6 <= |s| && s[i] == '&' && CharCi(s[i + 1], 'n') && CharCi(s[i + 2], 'b')
    && CharCi(s[i + 3], 's') && CharCi(s[i + 4], 'p') && s[i + 5] == ';'
  }

  /** No six consecutive characters spell `&nbsp;` in any letter case. */
  predicate NoNbsp(s: string)
  {
    forall i :: 0 <= i < |s| ==> !NbspAt(s, i)
  }

  /** No two adjacent whitespace characters. */
  predicate NoDoubleWs(s: string)
  {
    forall i :: 0 <= i < |s| - 1 ==> !IsWs(s[i]) || !IsWs(s[i + 1])
  }

  /** Every whitespace character is the plain space. */
  predicate WsIsSpace(s: string)
  {
    forall i :: 0 <= i < |s| && IsWs(s[i]) ==> s[i] == ' '
  }

  /** No whitespace at either end. */
  predicate Trimmed(s: string)
  {
    s == [] || (!IsWs(s[0]) && !IsWs(s[|s| - 1]))
  }

  /** No whitespace anywhere. */
  predicate NoWsIn(s: string)
  {
    forall i :: 0 <= i < |s| ==> !IsWs(s[i])
  }

  /** `NoTag` of a string with one more character in front. */
  lemma NoTagCons(c: char, t: string)
    ensures NoTag([c] + t) <==> NoTag(t) && (c == '<' ==> '>' !in t)
  {
    var s := [c] + t;
    if NoTag(t) && (c == '<' ==> '>' !in t) {
      forall i, j | 0 <= i < j < |s| && s[i] == '<' ensures s[j] != '>' {
        if i == 0 { assert s[j] == t[j - 1]; } else { assert s[i] == t[i - 1] && s[j] == t[j - 1]; }
      }
    }
    if NoTag(s) {
      forall i, j | 0 <= i < j < |t| && t[i] == '<' ensures t[j] != '>' {
        assert s[i + 1] == t[i] && s[j + 1] == t[j];
      }
      if c == '<' {
        forall j | 0 <= j < |t| ensures t[j] != '>' {
          assert s[0] == '<' && s[j + 1] == t[j];
        }
      }
    }
  }

  // ---------------------------------------------------------------- replace(/<[^>]*>/g, "")

  /** Position of the first `c` in `s`. */
  function FirstIndexOf(s: string, c: char): (k: nat)
    requires c in s
    ensures k < |s| && s[k] == c && c !in s[..k]
  {
    if s[0] == c then 0
    else
      var k' := FirstIndexOf(s[1..], c);
      assert s[..k' + 1] == [s[0]] + s[1..][..k'];
      k' + 1
  }

  /** Removes every match of `<[^>]*>`: a `<` that has some `>` after it starts a match,
      and since `[^>]*` cannot cross a `>`, the match ends at the first one. A `<` with
      no `>` after it is kept and the scan moves on by one character. */
  function StripTags(s: string): (r: string)
    ensures NoTag(r)
    decreases |s|, 0
  {
    if s == [] then []
    else if s[0] == '<' && '>' in s[1..] then StripTags(s[FirstIndexOf(s[1..], '>') + 2..])
    else
      var rest := StripTags(s[1..]);
      StripTagsChars(s[1..]);
      NoTagCons(s[0], rest);
      [s[0]] + rest
  }

  /** Removing tags introduces no character. */
  lemma {:induction false} StripTagsChars(s: string)
    ensures forall c :: c in StripTags(s) ==> c in s
    decreases |s|, 1
  {
    if s != [] {
      var n := if s[0] == '<' && '>' in s[1..] then FirstIndexOf(s[1..], '>') + 2 else 1;
      var t := s[n..];
      StripTagsChars(t);
      forall c | c in t ensures c in s {
        var i :| 0 <= i < |t| && t[i] == c;
        assert s[n + i] == c;
      }
    }
  }

  // ---------------------------------------------------------------- replace(/&nbsp;/gi, " ")

  /** Replaces every case-insensitive `&nbsp;` by one space. */
  function ReplaceNbsp(s: string): (r: string)
    ensures NoTag(s) ==> NoTag(r)
    decreases |s|, 0
  {
    if NbspAt(s, 0) then
      var rest := ReplaceNbsp(s[6..]);
      assert NoTag(s) ==> NoTag(s[6..]);
      " " + rest
    else if s == [] then []
    else
      var rest := ReplaceNbsp(s[1..]);
      ReplaceNbspChars(s[1..]);
      assert s == [s[0]] + s[1..];
      NoTagCons(s[0], s[1..]);
      NoTagCons(s[0], rest);
      [s[0]] + rest
  }

  /** The replacement introduces no character other than the space. */
  lemma {:induction false} ReplaceNbspChars(s: string)
    ensures forall c :: c in ReplaceNbsp(s) ==> c in s || c == ' '
    decreases |s|, 1
  {
    if NbspAt(s, 0) {
      ReplaceNbspChars(s[6..]);
      assert forall c :: c in s[6..] ==> c in s;
    } else if s != [] {
      ReplaceNbspChars(s[1..]);
      assert forall c :: c in s[1..] ==> c in s;
    }
  }

  // ---------------------------------------------------------------- replace(/\s+/g, " ")

  /** Length of the leading whitespace run. */
  function LeadingWs(s: string): (n: nat)
    ensures n <= |s|
    ensures forall i :: 0 <= i < n ==> IsWs(s[i])
    ensures n < |s| ==> !IsWs(s[n])
  {
    if s != [] && IsWs(s[0]) then 1 + LeadingWs(s[1..]) else 0
  }

  /** `s` without its leading whitespace run. */
  function DropWs(s: string): string
  {
    s[LeadingWs(s)..]
  }

  /** Replaces every maximal whitespace run by one space. */
  function CollapseWs(s: string): (r: string)
    ensures NoDoubleWs(r) && WsIsSpace(r)
    ensures s == [] <==> r == []
    ensures s != [] ==> IsWs(r[0]) == IsWs(s[0])
    ensures NoTag(s) ==> NoTag(r)
    decreases |s|, 0
  {
    if s == [] then []
    else if IsWs(s[0]) then
      var d := DropWs(s);
      assert NoTag(s) ==> NoTag(d);
      " " + CollapseWs(d)
    else
      var rest := CollapseWs(s[1..]);
      CollapseWsChars(s[1..]);
      assert s == [s[0]] + s[1..];
      NoTagCons(s[0], s[1..]);
      NoTagCons(s[0], rest);
      [s[0]] + rest
  }

  /** Collapsing introduces no character other than the space. */
  lemma {:induction false} CollapseWsChars(s: string)
    ensures forall c :: c in CollapseWs(s) ==> c in s || c == ' '
    decreases |s|, 1
  {
    if s != [] {
      if IsWs(s[0]) {
        CollapseWsChars(DropWs(s));
        assert forall c :: c in DropWs(s) ==> c in s;
      } else {
        CollapseWsChars(s[1..]);
        assert forall c :: c in s[1..] ==> c in s;
      }
    }
  }

  // ---------------------------------------------------------------- trim()

  /** Where the trailing whitespace run starts. */
  function TrailingWsStart(s: string): (m: nat)
    ensures m <= |s|
    ensures forall i :: m <= i < |s| ==> IsWs(s[i])
    ensures 0 < m ==> !IsWs(s[m - 1])
  {
    if s != [] && IsWs(s[|s| - 1]) then TrailingWsStart(s[..|s| - 1]) else |s|
  }

  /** `String.prototype.trim`: what lies between the leading and the trailing
      whitespace runs; nothing when the string is all whitespace. */
  function Trim(s: string): (r: string)
    ensures Trimmed(r)
  {
    var a, b := LeadingWs(s), TrailingWsStart(s);
    if a < b then s[a..b] else []
  }

  /** `trim` keeps one slice of its argument and removes only whitespace around it. */
  lemma TrimSlice(s: string)
    ensures var r := Trim(s); var a := LeadingWs(s);
      && a + |r| <= |s| && r == s[a..a + |r|]
      && (forall i :: 0 <= i < a ==> IsWs(s[i]))
      && (forall i :: a + |r| <= i < |s| ==> IsWs(s[i]))
  {
  }

  // ---------------------------------------------------------------- cleanText / cleanPubDate

  /** `cleanText(text = "")`: strip tags, turn `&nbsp;` into a space, collapse whitespace
      runs to one space, trim. */
  function CleanText(text: Option<string>): (r: string)
    ensures text.None? ==> r == ""
  {
    Trim(CollapseWs(ReplaceNbsp(StripTags(OrEmpty(text)))))
  }

  /** The three characters `[\n\r\t]` that `cleanPubDate` blanks out. */
  predicate IsCtl(c: char)
  {
    c == '\n' || c == '\r' || c == '\t'
  }

  /** None of `\n`, `\r`, `\t` occurs. */
  predicate NoCtl(s: string)
  {
    forall i :: 0 <= i < |s| ==> !IsCtl(s[i])
  }

  /** `replace(/[\n\r\t]/g, " ")`: one character in, one character out. */
  function BlankControls(s: string): (r: string)
    ensures |r| == |s|
    ensures forall i :: 0 <= i < |s| ==> r[i] == (if IsCtl(s[i]) then ' ' else s[i])
    ensures NoCtl(r)
  {
    if s == [] then [] else [if IsCtl(s[0]) then ' ' else s[0]] + BlankControls(s[1..])
  }

  /** `cleanPubDate(pubDate = "")`: blank `\n`, `\r`, `\t`, then trim. */
  function CleanPubDate(pubDate: Option<string>): (r: string)
    ensures pubDate.None? ==> r == ""
    ensures Trimmed(r)
    ensures NoCtl(r)
  {
    var b := BlankControls(OrEmpty(pubDate));
    TrimSlice(b);
    SliceNoCtl(b, LeadingWs(b), LeadingWs(b) + |Trim(b)|);
    Trim(b)
  }

  lemma SliceNoCtl(s: string, a: nat, b: nat)
    requires a <= b <= |s| && NoCtl(s)
    ensures NoCtl(s[a..b])
  {
  }

  // ---------------------------------------------------------------- properties of cleanText

  /** `NoNbsp` holds of every slice of a string that has it. */
  lemma NoNbspSlice(s: string, a: nat, b: nat)
    requires a <= b <= |s| && NoNbsp(s)
    ensures NoNbsp(s[a..b])
  {
    forall i | 0 <= i < b - a ensures !NbspAt(s[a..b], i) {
      if i + 6 <= b - a {
        assert !NbspAt(s, a + i);
      }
    }
  }

  /** `NoNbsp` of a string with one more character in front: only the window at
      position 0 is new. */
  lemma NoNbspCons(c: char, t: string)
    requires NoNbsp(t)
    requires !NbspAt([c] + t, 0)
    ensures NoNbsp([c] + t)
  {
    var s := [c] + t;
    forall i | 1 <= i < |s| ensures !NbspAt(s, i) {
      assert !NbspAt(t, i - 1);
    }
  }

  /** The last five characters of an `&nbsp;` are not whitespace. */
  lemma NbspTailNoWs(c: char, t: string)
    requires |t| >= 5
    ensures NbspAt([c] + t, 0) ==> NoWsIn(t[..5])
  {
  }

  lemma NoWsInTail(c: char, p: string)
    requires NoWsIn([c] + p)
    ensures NoWsIn(p)
  {
    forall i | 0 <= i < |p| ensures !IsWs(p[i]) { assert p[i] == ([c] + p)[i + 1]; }
  }

  /** A whitespace-free prefix of `ReplaceNbsp(s)` was copied unchanged from `s`:
      every replacement writes a space. */
  lemma {:induction false} ReplaceNbspPrefix(s: string, k: nat)
    requires k <= |ReplaceNbsp(s)|
    ensures NoWsIn(ReplaceNbsp(s)[..k]) ==> k <= |s| && ReplaceNbsp(s)[..k] == s[..k]
    decreases |s|
  {
    var r := ReplaceNbsp(s);
    if k > 0 && !NbspAt(s, 0) {
      var t := ReplaceNbsp(s[1..]);
      assert r == [s[0]] + t;
      ReplaceNbspPrefix(s[1..], k - 1);
      assert r[..k] == [s[0]] + t[..k - 1];
      if NoWsIn(r[..k]) {
        NoWsInTail(s[0], t[..k - 1]);
        assert s[..k] == [s[0]] + s[1..][..k - 1];
      }
    } else if k > 0 {
      assert r[..k][0] == ' ';
    }
  }

  /** After `replace(/&nbsp;/gi, " ")` no `&nbsp;` is left, not even one that the
      replacements could have assembled from pieces. */
  lemma {:induction false} ReplaceNbspNoNbsp(s: string)
    ensures NoNbsp(ReplaceNbsp(s))
    decreases |s|
  {
    if NbspAt(s, 0) {
      ReplaceNbspNoNbsp(s[6..]);
      NoNbspCons(' ', ReplaceNbsp(s[6..]));
    } else if s != [] {
      var t := ReplaceNbsp(s[1..]);
      ReplaceNbspNoNbsp(s[1..]);
      if |t| >= 5 {
        ReplaceNbspPrefix(s[1..], 5);
        NbspTailNoWs(s[0], t);
        if NoWsIn(t[..5]) {
          assert forall k :: 0 <= k < 6 ==> ([s[0]] + t)[k] == s[k];
        }
      }
      NoNbspCons(s[0], t);
    }
  }

  /** A whitespace-free prefix of `CollapseWs(s)` was copied unchanged from `s`. */
  lemma {:induction false} CollapsePrefix(s: string, k: nat)
    requires k <= |CollapseWs(s)|
    ensures NoWsIn(CollapseWs(s)[..k]) ==> k <= |s| && CollapseWs(s)[..k] == s[..k]
    decreases |s|
  {
    var r := CollapseWs(s);
    if k > 0 && !IsWs(s[0]) {
      var t := CollapseWs(s[1..]);
      assert r == [s[0]] + t;
      CollapsePrefix(s[1..], k - 1);
      assert r[..k] == [s[0]] + t[..k - 1];
      if NoWsIn(r[..k]) {
        NoWsInTail(s[0], t[..k - 1]);
        assert s[..k] == [s[0]] + s[1..][..k - 1];
      }
    } else if k > 0 {
      assert IsWs(r[..k][0]);
    }
  }

  /** The window at position 0 of `CollapseWs(s)`, when `s` starts with a
      non-whitespace character. */
  lemma CollapseHeadNoNbsp(s: string)
    requires s != [] && !IsWs(s[0]) && !NbspAt(s, 0)
    ensures !NbspAt([s[0]] + CollapseWs(s[1..]), 0)
  {
    var t := CollapseWs(s[1..]);
    if |t| >= 5 {
      CollapsePrefix(s[1..], 5);
      NbspTailNoWs(s[0], t);
      if NoWsIn(t[..5]) {
        assert t[..5] == s[1..][..5];
        assert t[0] == s[1] && t[1] == s[2] && t[2] == s[3] && t[3] == s[4] && t[4] == s[5];
      }
    }
  }

  /** Collapsing whitespace cannot create an `&nbsp;`, which holds no whitespace. */
  lemma {:induction false} CollapseNoNbsp(s: string)
    requires NoNbsp(s)
    ensures NoNbsp(CollapseWs(s))
    decreases |s|
  {
    if s != [] {
      if IsWs(s[0]) {
        var d := DropWs(s);
        NoNbspSlice(s, LeadingWs(s), |s|);
        assert s[LeadingWs(s)..|s|] == d;
        CollapseNoNbsp(d);
        NoNbspCons(' ', CollapseWs(d));
      } else {
        NoNbspSlice(s, 1, |s|);
        assert s[1..|s|] == s[1..];
        CollapseNoNbsp(s[1..]);
        CollapseHeadNoNbsp(s);
        NoNbspCons(s[0], CollapseWs(s[1..]));
      }
    }
  }

  lemma TrimNoNbsp(s: string)
    requires NoNbsp(s)
    ensures NoNbsp(Trim(s))
  {
    var r := Trim(s);
    var a := LeadingWs(s);
    TrimSlice(s);
    NoNbspSlice(s, a, a + |r|);
  }

  /** The shape `CollapseWs` leaves survives taking a slice, so `trim` keeps it. */
  lemma SliceShape(s: string, a: nat, b: nat)
    requires a <= b <= |s| && NoDoubleWs(s) && WsIsSpace(s) && NoTag(s)
    ensures NoDoubleWs(s[a..b]) && WsIsSpace(s[a..b]) && NoTag(s[a..b])
  {
  }

  /** `trim` keeps the shape `CollapseWs` leaves. */
  lemma TrimShape(s: string)
    requires NoDoubleWs(s) && WsIsSpace(s) && NoTag(s)
    ensures var r := Trim(s); NoDoubleWs(r) && WsIsSpace(r) && NoTag(r)
  {
  }

  /** The normal form `cleanText` produces: no whitespace at either end, no two
      whitespace characters in a row, every whitespace character a plain space, no
      complete tag and no `&nbsp;` in any letter case. */
  lemma CleanTextNormalForm(text: Option<string>)
    ensures var r := CleanText(text);
      Trimmed(r) && NoDoubleWs(r) && WsIsSpace(r) && NoTag(r) && NoNbsp(r)
  {
    var x := ReplaceNbsp(StripTags(OrEmpty(text)));
    assert NoTag(x);
    TrimShape(CollapseWs(x));
    CleanTextNoNbsp(text);
  }

  /** `cleanText` leaves no `&nbsp;` in any letter case. */
  lemma CleanTextNoNbsp(text: Option<string>)
    ensures NoNbsp(CleanText(text))
  {
    var a := StripTags(OrEmpty(text));
    ReplaceNbspNoNbsp(a);
    CollapseNoNbsp(ReplaceNbsp(a));
    TrimNoNbsp(CollapseWs(ReplaceNbsp(a)));
  }

  lemma {:induction false} StripTagsFixed(s: string)
    requires NoTag(s)
    ensures StripTags(s) == s
    decreases |s|
  {
    if s != [] {
      assert s == [s[0]] + s[1..];
      NoTagCons(s[0], s[1..]);
      StripTagsFixed(s[1..]);
    }
  }

  lemma {:induction false} ReplaceNbspFixed(s: string)
    requires NoNbsp(s)
    ensures ReplaceNbsp(s) == s
    decreases |s|
  {
    if s != [] {
      assert !NbspAt(s, 0);
      NoNbspSlice(s, 1, |s|);
      assert s[1..|s|] == s[1..];
      ReplaceNbspFixed(s[1..]);
    }
  }

  lemma {:induction false} CollapseFixed(s: string)
    requires NoDoubleWs(s) && WsIsSpace(s)
    ensures CollapseWs(s) == s
    decreases |s|
  {
    if s != [] {
      var t := s[1..];
      assert NoDoubleWs(t) && WsIsSpace(t) by {
        assert forall i :: 0 <= i < |t| ==> t[i] == s[i + 1];
      }
      CollapseFixed(t);
      if IsWs(s[0]) {
        assert CollapseWs(s) == " " + CollapseWs(t) by {
          assert LeadingWs(t) == 0 by {
            assert t == [] || !IsWs(t[0]);
          }
          assert DropWs(s) == t;
        }
        assert s == " " + t;
      } else {
        assert s == [s[0]] + t;
      }
    }
  }

  lemma TrimFixed(s: string)
    requires Trimmed(s)
    ensures Trim(s) == s
  {
  }

  /** `cleanText` is idempotent: its output is already in normal form. */
  lemma CleanTextIdempotent(text: Option<string>)
    ensures CleanText(Some(CleanText(text))) == CleanText(text)
  {
    var r := CleanText(text);
    CleanTextNormalForm(text);
    StripTagsFixed(r);
    ReplaceNbspFixed(r);
    CollapseFixed(r);
    TrimFixed(r);
  }
}
