/**
 String helpers that the service takes from its standard library, over ASCII text:
 trimming of white space, upper-casing, and their composition, the canonical form
 under which target systems, methods, roles and capabilities are compared.
 */
module Text {

  datatype Option<+T> = None | Some(value: T)

  /** White space as the trimming and field-splitting functions see it. */
  predicate IsSpace(c: char) {
    c == ' ' || '\t' <= c <= '\r'
  }

  predicate Blank(s: string) {
    forall i | 0 <= i < |s| :: IsSpace(s[i])
  }

  /** No white space at either end. */
  predicate Trimmed(s: string) {
    s == "" || (!IsSpace(s[0]) && !IsSpace(s[|s| - 1]))
  }

  function TrimLeft(s: string): string {
    if s != "" && IsSpace(s[0]) then TrimLeft(s[1..]) else s
  }

  function TrimRight(s: string): string {
    if s != "" && IsSpace(s[|s| - 1]) then TrimRight(s[..|s| - 1]) else s
  }

  function Trim(s: string): string {
    TrimRight(TrimLeft(s))
  }

  function UpperChar(c: char): char {
    if 'a' <= c <= 'z' then (c as int - 32) as char else c
  }

  function Upper(s: string): string {
    seq(|s|, i requires 0 <= i < |s| => UpperChar(s[i]))
  }

  /** The form under which codes are stored and compared. */
  function Canon(s: string): string {
    Upper(Trim(s))
  }

  /** Nullable text columns: the empty string is stored as NULL. */
  function NullIfEmpty(s: string): Option<string> {
    if s == "" then None else Some(s)
  }

  /** The same character, or the small and the capital form of one ASCII letter. */
  predicate SameLetter(a: char, b: char) {
    || a == b
    || ('a' <= a <= 'z' && a as int - b as int == 'a' as int - 'A' as int)
    || ('a' <= b <= 'z' && b as int - a as int == 'a' as int - 'A' as int)
  }

  /** Equal up to case, position by position. */
  predicate SameFold(a: string, b: string) {
    |a| == |b| && forall i | 0 <= i < |a| :: SameLetter(a[i], b[i])
  }

  predicate IsSmall(c: char) {
    'a' <= c <= 'z'
  }

  /** Two spellings of one code: equal up to outer blanks and case. */
  predicate SameCode(a: string, b: string) {
    SameFold(Trim(a), Trim(b))
  }

  // ---------- trimming ----------

  lemma {:induction false} TrimLeftShape(s: string) returns (pre: string)
    ensures s == pre + TrimLeft(s) && Blank(pre)
    ensures TrimLeft(s) == "" || !IsSpace(TrimLeft(s)[0])
  {
    if s != "" && IsSpace(s[0]) {
      var rest := TrimLeftShape(s[1..]);
      pre := [s[0]] + rest;
    } else {
      pre := "";
    }
  }

  lemma {:induction false} TrimRightShape(s: string) returns (post: string)
    ensures s == TrimRight(s) + post && Blank(post)
    ensures TrimRight(s) == "" || !IsSpace(TrimRight(s)[|TrimRight(s)| - 1])
  {
    if s != "" && IsSpace(s[|s| - 1]) {
      var rest := TrimRightShape(s[..|s| - 1]);
      post := rest + [s[|s| - 1]];
    } else {
      post := "";
    }
  }

  /** Trimming removes blanks from both ends and nothing else. */
  lemma TrimShape(s: string) returns (pre: string, post: string)
    ensures s == pre + Trim(s) + post && Blank(pre) && Blank(post) && Trimmed(Trim(s))
  {
    pre := TrimLeftShape(s);
    post := TrimRightShape(TrimLeft(s));
    assert Trim(s) != "" ==> Trim(s)[0] == TrimLeft(s)[0];
  }

  lemma {:induction false} TrimLeftSkips(pre: string, s: string)
    requires Blank(pre) && (s == "" || !IsSpace(s[0]))
    ensures TrimLeft(pre + s) == s
  {
    if pre == "" {
      assert pre + s == s;
    } else {
      assert (pre + s)[1..] == pre[1..] + s;
      TrimLeftSkips(pre[1..], s);
    }
  }

  lemma {:induction false} TrimRightSkips(s: string, post: string)
    requires Blank(post) && (s == "" || !IsSpace(s[|s| - 1]))
    ensures TrimRight(s + post) == s
  {
    if post == "" {
      assert s + post == s;
    } else {
      assert (s + post)[..|s + post| - 1] == s + post[..|post| - 1];
      TrimRightSkips(s, post[..|post| - 1]);
    }
  }

  /** A trimmed core between blanks is what trimming returns: with TrimShape, Trim is fully characterised. */
  lemma TrimUnique(pre: string, core: string, post: string)
    requires Blank(pre) && Trimmed(core) && Blank(post)
    ensures Trim(pre + core + post) == core
  {
    if core == "" {
      assert pre + core + post == (pre + post) + "";
      TrimLeftSkips(pre + post, "");
    } else {
      assert pre + core + post == pre + (core + post);
      TrimLeftSkips(pre, core + post);
      TrimRightSkips(core, post);
    }
  }

  lemma TrimOfTrimmed(s: string)
    requires Trimmed(s)
    ensures Trim(s) == s
  {
  }

  lemma TrimIdempotent(s: string)
    ensures Trimmed(Trim(s)) && Trim(Trim(s)) == Trim(s)
  {
    var pre, post := TrimShape(s);
    TrimOfTrimmed(Trim(s));
  }

  /** Trimming leaves nothing exactly when the text is blank. */
  lemma TrimEmpty(s: string)
    ensures Trim(s) == "" <==> Blank(s)
  {
    var pre, post := TrimShape(s);
    assert Trim(s) != "" ==> s[|pre|] == Trim(s)[0];
  }

  // ---------- canonical form ----------

  lemma UpperCharFacts(c: char)
    ensures UpperChar(UpperChar(c)) == UpperChar(c)
    ensures IsSpace(UpperChar(c)) == IsSpace(c)
  {
  }

  lemma UpperIdempotent(s: string)
    ensures Upper(Upper(s)) == Upper(s)
  {
  }

  lemma TrimUpperCommute(s: string)
    ensures Trim(Upper(s)) == Upper(Trim(s))
  {
    var pre, post := TrimShape(s);
    var core := Trim(s);
    assert Upper(s) == Upper(pre) + Upper(core) + Upper(post);
    forall c: char ensures IsSpace(UpperChar(c)) == IsSpace(c) { UpperCharFacts(c); }
    TrimUnique(Upper(pre), Upper(core), Upper(post));
  }

  /** The canonical form is a fixed point, so applying it again anywhere along the pipeline is harmless. */
  lemma CanonIdempotent(s: string)
    ensures Canon(Canon(s)) == Canon(s)
    ensures Trim(Canon(s)) == Canon(s)
  {
    TrimIdempotent(s);
    TrimUpperCommute(Trim(s));
    UpperIdempotent(Trim(s));
  }

  lemma CanonEmpty(s: string)
    ensures Canon(s) == "" <==> Blank(s)
  {
    TrimEmpty(s);
    assert |Canon(s)| == |Trim(s)|;
  }

  lemma UpperCharIsLetter(c: char, d: char)
    ensures UpperChar(c) == d <==> SameLetter(c, d) && !IsSmall(d)
    ensures UpperChar(c) == UpperChar(d) <==> SameLetter(c, d)
  {
  }

  /** Upper-casing gives the one text without small letters that is equal up to case. */
  lemma UpperCharacterised(s: string, x: string)
    ensures x == Upper(s) <==> SameFold(s, x) && forall i | 0 <= i < |x| :: !IsSmall(x[i])
  {
    forall i | 0 <= i < |s| && |s| == |x| ensures Upper(s)[i] == x[i] <==> SameLetter(s[i], x[i]) && !IsSmall(x[i]) {
      UpperCharIsLetter(s[i], x[i]);
    }
  }

  lemma UpperAgrees(a: string, b: string)
    ensures Upper(a) == Upper(b) <==> SameFold(a, b)
  {
    if |a| == |b| {
      forall i | 0 <= i < |a| ensures Upper(a)[i] == Upper(b)[i] <==> SameLetter(a[i], b[i]) {
        UpperCharIsLetter(a[i], b[i]);
      }
    } else {
      assert |Upper(a)| == |a| && |Upper(b)| == |b|;
    }
  }

  /**
   The canonical form is the one text without outer blanks and small letters that spells the same code, and two
   texts have one canonical form exactly when they spell the same code.
   */
  lemma CanonCharacterised(s: string, x: string)
    ensures x == Canon(s) <==> Trimmed(x) && SameCode(s, x) && forall i | 0 <= i < |x| :: !IsSmall(x[i])
    ensures Canon(s) == Canon(x) <==> SameCode(s, x)
  {
    UpperAgrees(Trim(s), Trim(x));
    UpperCharacterised(Trim(s), x);
    if x == Canon(s) {
      CanonIdempotent(s);
      TrimIdempotent(x);
    }
    if Trimmed(x) {
      TrimOfTrimmed(x);
    }
  }

  /** The ASCII characters that count as white space. */
  lemma SpacesAre(c: char)
    ensures IsSpace(c) <==> c in {' ', '\t', '\n', '\U{B}', '\U{C}', '\r'}
  {
  }

  /** Text without lower-case letters or outer blanks is its own canonical form. */
  lemma CanonFixes(s: string)
    requires Trimmed(s) && forall i | 0 <= i < |s| :: !('a' <= s[i] <= 'z')
    ensures Canon(s) == s
  {
  }
}
