/** The two string operations the board uses: JavaScript's `String.prototype.trim`
    (to reject blank descriptions) and the column-title transform
    `replaceAll(/([A-Z])/g, ' $1')`. */
module Text {

  /** The characters `trim` strips: ECMAScript WhiteSpace (tab, vertical tab,
      form feed, space, no-break space, byte-order mark and every other Unicode
      space separator) and LineTerminator (LF, CR, line and paragraph separator). */
  predicate IsWhitespace(c: char) {
    || c == '\t' || c == '\n' || c == '\U{000B}' || c == '\U{000C}' || c == '\r'
    || c == ' ' || c == '\U{00A0}' || c == '\U{1680}'
    || ('\U{2000}' <= c <= '\U{200A}')
    || c == '\U{2028}' || c == '\U{2029}' || c == '\U{202F}' || c == '\U{205F}'
    || c == '\U{3000}' || c == '\U{FEFF}'
  }

  /** A string that is empty or made of whitespace only. */
  predicate IsBlank(s: string) {
    forall k :: 0 <= k < |s| ==> IsWhitespace(s[k])
  }

  /** `s` with its leading whitespace removed. */
  function TrimStart(s: string): (r: string)
    ensures |r| <= |s| && r == s[|s| - |r|..]
    ensures r == [] || !IsWhitespace(r[0])
    ensures forall k :: 0 <= k < |s| - |r| ==> IsWhitespace(s[k])
  {
    if |s| > 0 && IsWhitespace(s[0]) then TrimStart(s[1..]) else s
  }

  /** `s` with its trailing whitespace removed. */
  function TrimEnd(s: string): (r: string)
    ensures |r| <= |s| && r == s[..|r|]
    ensures r == [] || !IsWhitespace(r[|r| - 1])
    ensures forall k :: |r| <= k < |s| ==> IsWhitespace(s[k])
  {
    if |s| > 0 && IsWhitespace(s[|s| - 1]) then TrimEnd(s[..|s| - 1]) else s
  }

  /** `s[a..b]` is what remains of `s` once whitespace is cut from both ends:
      everything outside it is whitespace and it neither starts nor ends with
      whitespace. */
  predicate TrimmedAt(s: string, a: nat, b: nat) {
    && a <= b <= |s|
    && (forall k :: 0 <= k < a ==> IsWhitespace(s[k]))
    && (forall k :: b <= k < |s| ==> IsWhitespace(s[k]))
    && (a == b || (!IsWhitespace(s[a]) && !IsWhitespace(s[b - 1])))
  }

  /** JavaScript's `s.trim()`. */
  function Trim(s: string): (r: string)
    ensures exists a: nat, b: nat :: TrimmedAt(s, a, b) && r == s[a..b]
  {
    var t := TrimStart(s);
    var r := TrimEnd(t);
    var a := |s| - |t|;
    TrimmedInfix(s, t, a, r);
    r
  }

  /** Cutting leading whitespace from `s` to get `t`, then trailing whitespace
      from `t` to get `r`, leaves the infix of `s` that `TrimmedAt` describes. */
  lemma TrimmedInfix(s: string, t: string, a: nat, r: string)
    requires a <= |s| && t == s[a..]
    requires forall k :: 0 <= k < a ==> IsWhitespace(s[k])
    requires t == [] || !IsWhitespace(t[0])
    requires |r| <= |t| && r == t[..|r|]
    requires forall k :: |r| <= k < |t| ==> IsWhitespace(t[k])
    requires r == [] || !IsWhitespace(r[|r| - 1])
    ensures TrimmedAt(s, a, a + |r|) && r == s[a..a + |r|]
  {
    forall k | a + |r| <= k < |s|
      ensures IsWhitespace(s[k])
    {
      assert s[k] == t[k - a];
    }
  }

  /** `s.trim() !== ""` exactly when `s` has a character that is not whitespace. */
  lemma TrimEmptyIffBlank(s: string)
    ensures Trim(s) == [] <==> IsBlank(s)
  {
    var r := Trim(s);
    var a: nat, b: nat :| TrimmedAt(s, a, b) && r == s[a..b];
    if r == [] {
      assert a == b;
    }
  }

  /** The characters the pattern `[A-Z]` matches: ASCII capitals only, since the
      regular expression carries no `i` or `u` flag. */
  predicate IsUpper(c: char) {
    'A' <= c <= 'Z'
  }

  /** How many characters of `s` the pattern `[A-Z]` matches. */
  function CountUpper(s: string): (n: nat)
    ensures n <= |s|
  {
    if s == [] then 0 else (if IsUpper(s[0]) then 1 else 0) + CountUpper(s[1..])
  }

  /** The count is zero exactly when `[A-Z]` matches nowhere in `s`. */
  lemma {:induction false} CountUpperZero(s: string)
    ensures CountUpper(s) == 0 <==> forall k :: 0 <= k < |s| ==> !IsUpper(s[k])
    decreases |s|
  {
    if s != [] {
      CountUpperZero(s[1..]);
      assert forall k :: 1 <= k < |s| ==> s[k] == s[1..][k - 1];
    }
  }

  /** `s.replaceAll(/([A-Z])/g, ' $1')`: every ASCII capital gets one space in
      front of it; nothing else changes. */
  function Title(s: string): (r: string)
    ensures |r| == |s| + CountUpper(s)
  {
    if s == [] then []
    else (if IsUpper(s[0]) then [' ', s[0]] else [s[0]]) + Title(s[1..])
  }

  /** In a title every capital stands right after a space. */
  lemma {:induction false} TitleSpacesCapitals(s: string)
    ensures forall k :: 0 <= k < |Title(s)| && IsUpper(Title(s)[k]) ==> 0 < k && Title(s)[k - 1] == ' '
    decreases |s|
  {
    if s != [] {
      TitleSpacesCapitals(s[1..]);
      var rest := Title(s[1..]);
      var head := if IsUpper(s[0]) then [' ', s[0]] else [s[0]];
      assert Title(s) == head + rest;
      assert forall k :: |head| <= k < |head| + |rest| ==> (head + rest)[k] == rest[k - |head|];
    }
  }

  /** Removes the space that stands right before each capital: the inverse
      reading of `Title`. */
  function Untitle(s: string): (r: string)
    ensures |r| <= |s|
    decreases |s|
  {
    if s == [] then []
    else if |s| >= 2 && s[0] == ' ' && IsUpper(s[1]) then [s[1]] + Untitle(s[2..])
    else [s[0]] + Untitle(s[1..])
  }

  /** `Untitle` keeps every capital and drops at most one character per
      capital. */
  lemma {:induction false} UntitleKeepsCapitals(s: string)
    ensures CountUpper(Untitle(s)) == CountUpper(s)
    ensures |s| <= |Untitle(s)| + CountUpper(s)
    decreases |s|
  {
    if s == [] {
    } else if |s| >= 2 && s[0] == ' ' && IsUpper(s[1]) {
      var rest := Untitle(s[2..]);
      UntitleKeepsCapitals(s[2..]);
      assert ([s[1]] + rest)[1..] == rest;
      assert s[1..][1..] == s[2..];
    } else {
      var rest := Untitle(s[1..]);
      UntitleKeepsCapitals(s[1..]);
      assert ([s[0]] + rest)[1..] == rest;
    }
  }

  /** `Title(s)` is the only string as long as `s` plus its capitals that
      `Untitle` turns back into `s`: the length and the inverse together
      determine the title. */
  lemma {:induction false} TitleUnique(x: string, s: string)
    requires |x| == |s| + CountUpper(s) && Untitle(x) == s
    ensures x == Title(s)
    decreases |x|
  {
    if x == [] {
    } else if |x| >= 2 && x[0] == ' ' && IsUpper(x[1]) {
      assert s[0] == x[1] && s[1..] == Untitle(x[2..]);
      TitleUnique(x[2..], s[1..]);
      assert x == [' ', s[0]] + x[2..];
    } else {
      assert s[0] == x[0] && s[1..] == Untitle(x[1..]);
      UntitleKeepsCapitals(x[1..]);
      assert !IsUpper(x[0]);
      TitleUnique(x[1..], s[1..]);
      assert x == [s[0]] + x[1..];
    }
  }

  /** `Title` only inserts spaces: taking them back out recovers its input. */
  lemma {:induction false} UntitleTitle(s: string)
    ensures Untitle(Title(s)) == s
    decreases |s|
  {
    if s != [] {
      UntitleTitle(s[1..]);
      var rest := Title(s[1..]);
      if IsUpper(s[0]) {
        assert Title(s) == [' ', s[0]] + rest;
        assert (Title(s))[2..] == rest;
      } else {
        assert Title(s) == [s[0]] + rest;
        assert (Title(s))[1..] == rest;
      }
    }
  }

  /** A string without capitals is its own title. */
  lemma {:induction false} TitleWithoutCapitals(s: string)
    requires forall k :: 0 <= k < |s| ==> !IsUpper(s[k])
    ensures Title(s) == s
    decreases |s|
  {
    if s != [] {
      TitleWithoutCapitals(s[1..]);
    }
  }

  /** `Title` distributes over concatenation: it works one character at a time. */
  lemma {:induction false} TitleAppend(s: string, t: string)
    ensures Title(s + t) == Title(s) + Title(t)
    decreases |s|
  {
    if s != [] {
      assert (s + t)[1..] == s[1..] + t;
      TitleAppend(s[1..], t);
    } else {
      assert s + t == t;
    }
  }

  /** A single capital between two words without capitals gets one space in
      front of it; everything else is kept. */
  lemma {:induction false} TitleOneCapital(p: string, c: char, s: string)
    requires forall k :: 0 <= k < |p| ==> !IsUpper(p[k])
    requires IsUpper(c)
    requires forall k :: 0 <= k < |s| ==> !IsUpper(s[k])
    ensures Title(p + [c] + s) == p + [' ', c] + s
  {
    assert p + [c] + s == p + ([c] + s);
    TitleAppend(p, [c] + s);
    TitleWithoutCapitals(p);
    assert ([c] + s)[1..] == s;
    TitleWithoutCapitals(s);
  }
}
