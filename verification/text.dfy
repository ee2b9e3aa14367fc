/** The JavaScript string operations the editor's forms rely on: `trim`,
    `toLowerCase` (on ASCII letters), `includes` and `startsWith`. */
module Text {
  /** The characters `String.prototype.trim` strips: ECMAScript white space
      and line terminators. */
  predicate IsSpace(c: char) {
    || c == ' ' || c == '\t' || c == '\n' || c == '\r' || c == '\U{B}' || c == '\U{C}'
    || c == '\U{A0}' || c == '\U{FEFF}' || c == '\U{1680}' || ('\U{2000}' <= c <= '\U{200A}')
    || c == '\U{2028}' || c == '\U{2029}' || c == '\U{202F}' || c == '\U{205F}' || c == '\U{3000}'
  }

  /** Every character of `s` is white space (true of the empty string). */
  predicate Blank(s: string) {
    forall i :: 0 <= i < |s| ==> IsSpace(s[i])
  }

  /** Two blank strings put together are blank. */
  lemma BlankConcat(a: string, b: string)
    requires Blank(a) && Blank(b)
    ensures Blank(a + b)
  {
    assert forall i :: |a| <= i < |a + b| ==> (a + b)[i] == b[i - |a|];
  }

  /** One leading space more: a blank dropped prefix of `s[1..]` grows by
      `s[0]` into a blank dropped prefix of `s`. */
  lemma DropSpaceFront(s: string, n: nat)
    requires |s| > 0 && IsSpace(s[0]) && n <= |s| - 1
    requires Blank(s[1..][..|s| - 1 - n])
    ensures Blank(s[..|s| - n])
    ensures Blank(s) <==> Blank(s[1..])
    ensures s[1..][|s| - 1 - n..] == s[|s| - n..]
  {
    assert s[..|s| - n] == [s[0]] + s[1..][..|s| - 1 - n];
    BlankConcat([s[0]], s[1..][..|s| - 1 - n]);
    assert forall i :: 1 <= i < |s| ==> s[i] == s[1..][i - 1];
  }

  /** One trailing space more, the mirror image of `DropSpaceFront`. */
  lemma DropSpaceBack(s: string, n: nat)
    requires |s| > 0 && IsSpace(s[|s| - 1]) && n <= |s| - 1
    requires Blank(s[..|s| - 1][n..])
    ensures Blank(s[n..])
    ensures Blank(s) <==> Blank(s[..|s| - 1])
    ensures s[..|s| - 1][..n] == s[..n]
  {
    assert s[n..] == s[..|s| - 1][n..] + [s[|s| - 1]];
    BlankConcat(s[..|s| - 1][n..], [s[|s| - 1]]);
    assert forall i :: 0 <= i < |s| - 1 ==> s[i] == s[..|s| - 1][i];
  }

  /** `s` with leading white space removed: a suffix of `s` whose dropped
      prefix is blank, empty exactly when `s` is blank. */
  function TrimStart(s: string): (r: string)
    ensures |r| <= |s| && r == s[|s| - |r|..]
    ensures Blank(s[..|s| - |r|])
    ensures |r| > 0 ==> !IsSpace(r[0])
    ensures |r| == 0 <==> Blank(s)
  {
    if |s| > 0 && IsSpace(s[0]) then
      var r := TrimStart(s[1..]);
      DropSpaceFront(s, |r|);
      r
    else s
  }

  /** `s` with trailing white space removed: a prefix of `s` whose dropped
      suffix is blank, empty exactly when `s` is blank. */
  function TrimEnd(s: string): (r: string)
    ensures |r| <= |s| && r == s[..|r|]
    ensures Blank(s[|r|..])
    ensures |r| > 0 ==> !IsSpace(r[|r| - 1])
    ensures |r| == 0 <==> Blank(s)
  {
    if |s| > 0 && IsSpace(s[|s| - 1]) then
      var r := TrimEnd(s[..|s| - 1]);
      DropSpaceBack(s, |r|);
      r
    else s
  }

  /** `String.prototype.trim`. The result is empty exactly when the input is
      all white space; otherwise it neither starts nor ends with white space.
      It is a slice of the input with only white space on either side. */
  function Trim(s: string): (r: string)
    ensures |r| <= |s|
    ensures exists a: nat :: a + |r| <= |s| && r == s[a..a + |r|] && Blank(s[..a]) && Blank(s[a + |r|..])
    ensures |r| == 0 <==> Blank(s)
    ensures |r| > 0 ==> !IsSpace(r[0]) && !IsSpace(r[|r| - 1])
  {
    var t := TrimStart(s);
    assert Blank(t) <==> |t| == 0;
    var r := TrimEnd(t);
    var a := |s| - |t|;
    assert r == s[a..a + |r|];
    assert s[a + |r|..] == t[|r|..];
    r
  }

  /** Trimming a string that is already trimmed changes nothing. */
  lemma TrimIdempotent(s: string)
    ensures Trim(Trim(s)) == Trim(s)
  {
    var r := Trim(s);
    if |r| > 0 {
      assert TrimStart(r) == r;
      assert TrimEnd(r) == r;
    }
  }

  /** ASCII `toLowerCase` of one character. */
  function LowerChar(c: char): (d: char)
    ensures 'A' <= c <= 'Z' ==> 'a' <= d <= 'z' && d as int - 'a' as int == c as int - 'A' as int
    ensures !('A' <= c <= 'Z') ==> d == c
  {
    if 'A' <= c <= 'Z' then (c as int - 'A' as int + 'a' as int) as char else c
  }

  /** `toLowerCase` on ASCII letters, pointwise. */
  function Lower(s: string): (r: string)
    ensures |r| == |s|
    ensures forall i :: 0 <= i < |s| ==> r[i] == LowerChar(s[i])
  {
    if |s| == 0 then "" else [LowerChar(s[0])] + Lower(s[1..])
  }

  /** `s.startsWith(p)`. */
  predicate StartsWith(s: string, p: string) {
    |p| <= |s| && s[..|p|] == p
  }

  /** `s.includes(t)`: `t` occurs in `s` at some offset. */
  predicate Contains(s: string, t: string)
    decreases |s|
  {
    StartsWith(s, t) || (|s| > 0 && Contains(s[1..], t))
  }

  /** Every string includes the empty string and itself. */
  lemma ContainsEmptyAndSelf(s: string)
    ensures Contains(s, "") && Contains(s, s)
  {
    assert StartsWith(s, "") && StartsWith(s, s);
  }

  /** `Contains` finds `t` exactly where it occurs: at offset `k` of `s`. */
  lemma {:induction false} ContainsAt(s: string, t: string, k: nat)
    requires k + |t| <= |s| && s[k..k + |t|] == t
    ensures Contains(s, t)
    decreases k
  {
    if k == 0 {
      assert s[..|t|] == t;
    } else {
      assert s[1..][k - 1..k - 1 + |t|] == s[k..k + |t|];
      ContainsAt(s[1..], t, k - 1);
    }
  }
}
