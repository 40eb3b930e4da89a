/** Reading the bearer token from an Authorization header (section 2.1 of RFC 6750). */
module Bearer {
  import opened Text

  /** A non-empty run without white space. */
  predicate Word(s: string) {
    s != "" && forall i | 0 <= i < |s| :: !IsSpace(s[i])
  }

  function WordLength(s: string): (n: nat)
    ensures n <= |s|
  {
    if s == "" || IsSpace(s[0]) then 0 else 1 + WordLength(s[1..])
  }

  lemma {:induction false} WordLengthIs(s: string)
    ensures forall i | 0 <= i < WordLength(s) :: !IsSpace(s[i])
    ensures WordLength(s) < |s| ==> IsSpace(s[WordLength(s)])
  {
    if s != "" && !IsSpace(s[0]) {
      WordLengthIs(s[1..]);
    }
  }

  /** The words of a text, split around white space. */
  function Fields(s: string): seq<string>
    decreases |s|
  {
    if s == "" then []
    else if IsSpace(s[0]) then Fields(s[1..])
    else [s[..WordLength(s)]] + Fields(s[WordLength(s)..])
  }

  predicate EqualFold(a: string, b: string) {
    Upper(a) == Upper(b)
  }

  function BearerToken(header: string): string {
    var trimmed := Trim(header);
    var parts := Fields(trimmed);
    if trimmed == "" || |parts| != 2 || !EqualFold(parts[0], "Bearer") then "" else Trim(parts[1])
  }

  // ---------- splitting ----------

  lemma {:induction false} FieldsSkip(blank: string, s: string)
    requires Blank(blank)
    ensures Fields(blank + s) == Fields(s)
  {
    if blank == "" {
      assert blank + s == s;
    } else {
      assert (blank + s)[1..] == blank[1..] + s;
      FieldsSkip(blank[1..], s);
    }
  }

  lemma {:induction false} WordLengthOfWord(w: string, rest: string)
    requires (forall i | 0 <= i < |w| :: !IsSpace(w[i])) && (rest == "" || IsSpace(rest[0]))
    ensures WordLength(w + rest) == |w|
  {
    if w == "" {
      assert w + rest == rest;
    } else {
      assert (w + rest)[1..] == w[1..] + rest;
      WordLengthOfWord(w[1..], rest);
    }
  }

  lemma FieldsTake(w: string, rest: string)
    requires Word(w) && (rest == "" || IsSpace(rest[0]))
    ensures Fields(w + rest) == [w] + Fields(rest)
  {
    WordLengthOfWord(w, rest);
    assert (w + rest)[..|w|] == w && (w + rest)[|w|..] == rest;
  }

  lemma FirstWord(s: string)
    requires s != "" && !IsSpace(s[0])
    ensures var word, rest := s[..WordLength(s)], s[WordLength(s)..];
            && s == "" + word + rest && Word(word) && (rest == "" || IsSpace(rest[0]))
            && Fields(s)[0] == word && Fields(s)[1..] == Fields(rest)
  {
    WordLengthIs(s);
    assert s == s[..WordLength(s)] + s[WordLength(s)..];
  }

  lemma SkipBlank(s: string, pre: string, word: string, rest: string)
    requires s != "" && IsSpace(s[0]) && s[1..] == pre + word + rest && Blank(pre)
    ensures s == [s[0]] + pre + word + rest && Blank([s[0]] + pre) && Fields(s) == Fields(s[1..])
  {
    assert s == [s[0]] + s[1..];
  }

  /** A text with fields is blanks, its first field, and a rest with the other fields. */
  lemma {:induction false} FieldsFirst(s: string) returns (pre: string, rest: string)
    requires Fields(s) != []
    ensures s == pre + Fields(s)[0] + rest && Blank(pre) && Word(Fields(s)[0])
    ensures (rest == "" || IsSpace(rest[0])) && Fields(rest) == Fields(s)[1..]
    decreases |s|
  {
    if IsSpace(s[0]) {
      var shorter;
      shorter, rest := FieldsFirst(s[1..]);
      SkipBlank(s, shorter, Fields(s[1..])[0], rest);
      pre := [s[0]] + shorter;
    } else {
      FirstWord(s);
      pre, rest := "", s[WordLength(s)..];
    }
  }

  lemma {:induction false} NoFieldsIsBlank(s: string)
    requires Fields(s) == []
    ensures Blank(s)
    decreases |s|
  {
    if s != "" {
      NoFieldsIsBlank(s[1..]);
      assert s == [s[0]] + s[1..];
    }
  }

  // ---------- the header ----------

  /** Blanks, a scheme that spells Bearer in any case, at least one blank, the token, blanks. */
  ghost predicate IsBearerHeader(header: string, a: string, scheme: string, b: string, token: string, c: string) {
    && header == a + scheme + b + token + c
    && Blank(a) && Blank(b) && Blank(c) && b != ""
    && Word(scheme) && SameFold(scheme, "Bearer")
    && Word(token)
  }

  /** Every well-formed header gives back its token. */
  lemma BearerRoundTrip(header: string, a: string, scheme: string, b: string, token: string, c: string)
    requires IsBearerHeader(header, a, scheme, b, token, c)
    ensures BearerToken(header) == token
  {
    UpperAgrees(scheme, "Bearer");
    var core := scheme + b + token;
    assert header == a + core + c;
    TrimUnique(a, core, c);
    assert core == scheme + (b + token);
    FieldsTake(scheme, b + token);
    FieldsSkip(b, token);
    assert token + "" == token;
    FieldsTake(token, "");
    TrimOfTrimmed(token);
  }

  lemma TwoFields(s: string) returns (pre: string, gap: string, last: string)
    requires |Fields(s)| == 2
    ensures s == pre + Fields(s)[0] + (gap + Fields(s)[1] + last)
    ensures Blank(pre) && Blank(gap) && Blank(last) && gap != ""
    ensures Word(Fields(s)[0]) && Word(Fields(s)[1])
  {
    var rest;
    pre, rest := FieldsFirst(s);
    gap, last := FieldsFirst(rest);
    NoFieldsIsBlank(last);
    assert Fields(s)[1..][0] == Fields(s)[1];
    assert rest[0] == (gap + Fields(s)[1])[0];
  }

  lemma Regroup(left: string, pre: string, x: string, gap: string, y: string, last: string, right: string)
    ensures left + (pre + x + (gap + y + last)) + right == (left + pre) + x + gap + y + (last + right)
  {
  }

  /** Every token that is returned comes from a well-formed header around it. */
  lemma BearerTokenComesFromHeader(header: string) returns (a: string, scheme: string, b: string, c: string)
    requires BearerToken(header) != ""
    ensures IsBearerHeader(header, a, scheme, b, BearerToken(header), c)
  {
    var left, right := TrimShape(header);
    var pre, gap, last := TwoFields(Trim(header));
    scheme, b := Fields(Trim(header))[0], gap;
    var token := Fields(Trim(header))[1];
    UpperAgrees(scheme, "Bearer");
    TrimOfTrimmed(token);
    a, c := left + pre, last + right;
    Regroup(left, pre, scheme, gap, token, last, right);
  }
}
