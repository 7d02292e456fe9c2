/**
 * Tags. A tag's name is its input with the surrounding blanks removed (Java's String.trim,
 * which removes every character up to U+0020 at either end) and then lower-cased; letters
 * are lower-cased over ASCII only.
 */
module Tags {

  /** The characters String.trim removes: U+0000 to U+0020. */
  predicate IsBlank(c: char) {
    c <= ' '
  }

  predicate AllBlank(s: string) {
    forall i :: 0 <= i < |s| ==> IsBlank(s[i])
  }

  /** The number of blanks at the start of `s`. */
  function Lead(s: string): (n: nat)
    ensures n <= |s|
    ensures forall i :: 0 <= i < n ==> IsBlank(s[i])
    ensures n < |s| ==> !IsBlank(s[n])
  {
    if |s| > 0 && IsBlank(s[0]) then 1 + Lead(s[1..]) else 0
  }

  /** The number of blanks at the end of `s`. */
  function Trail(s: string): (n: nat)
    ensures n <= |s|
    ensures forall i :: |s| - n <= i < |s| ==> IsBlank(s[i])
    ensures n < |s| ==> !IsBlank(s[|s| - n - 1])
  {
    if |s| > 0 && IsBlank(s[|s| - 1]) then 1 + Trail(s[..|s| - 1]) else 0
  }

  /**
   * `s` without its leading and trailing blanks: a slice of `s` that starts after the
   * leading blanks, is followed only by blanks, and neither starts nor ends with one.
   */
  function Trim(s: string): (r: string)
    ensures Lead(s) + |r| <= |s| && r == s[Lead(s)..Lead(s) + |r|]
    ensures AllBlank(s[Lead(s) + |r|..])
    ensures |r| > 0 ==> !IsBlank(r[0]) && !IsBlank(r[|r| - 1])
  {
    var rest := s[Lead(s)..];
    assert |rest| > 0 ==> rest[0] == s[Lead(s)];
    rest[..|rest| - Trail(rest)]
  }

  /** ASCII lower-casing of one character. */
  function LowerChar(c: char): char {
    if 'A' <= c <= 'Z' then (c as int - 'A' as int + 'a' as int) as char else c
  }

  function Lower(s: string): (r: string)
    ensures |r| == |s|
    ensures forall i :: 0 <= i < |s| ==> r[i] == LowerChar(s[i])
  {
    seq(|s|, i requires 0 <= i < |s| => LowerChar(s[i]))
  }

  /**
   * The name a tag stores for the given input: no blank at either end, no upper-case ASCII
   * letter, and the lower-cased input once the blanks around it are dropped.
   */
  function Normalize(name: string): (r: string)
    ensures |r| > 0 ==> !IsBlank(r[0]) && !IsBlank(r[|r| - 1])
    ensures forall i :: 0 <= i < |r| ==> !('A' <= r[i] <= 'Z')
    ensures var lead := Lead(name);
      && lead + |r| <= |name| && AllBlank(name[lead + |r|..])
      && r == Lower(name[lead..lead + |r|])
  {
    Lower(Trim(name))
  }

  /** A tag. The name has no setter; construct one through NewTag. */
  datatype Tag = Tag(name: string)

  /**
   * The constructor: the stored name has no blank at either end and no upper-case ASCII
   * letter, and it is the lower-cased input once the blanks around it are dropped.
   */
  function NewTag(name: string): (t: Tag)
    ensures |t.name| > 0 ==> !IsBlank(t.name[0]) && !IsBlank(t.name[|t.name| - 1])
    ensures forall i :: 0 <= i < |t.name| ==> !('A' <= t.name[i] <= 'Z')
    ensures var lead := Lead(name);
      && lead + |t.name| <= |name| && AllBlank(name[lead + |t.name|..])
      && t.name == Lower(name[lead..lead + |t.name|])
  {
    Tag(Normalize(name))
  }

  /** Lower-casing keeps exactly the same characters blank. */
  lemma LowerKeepsBlanks(c: char)
    ensures IsBlank(LowerChar(c)) <==> IsBlank(c)
  {
  }

  lemma {:induction false} LeadOfLower(s: string)
    ensures Lead(Lower(s)) == Lead(s)
  {
    if |s| > 0 {
      LowerKeepsBlanks(s[0]);
      assert Lower(s)[1..] == Lower(s[1..]);
      if IsBlank(s[0]) {
        LeadOfLower(s[1..]);
      }
    }
  }

  lemma {:induction false} TrailOfLower(s: string)
    ensures Trail(Lower(s)) == Trail(s)
  {
    if |s| > 0 {
      LowerKeepsBlanks(s[|s| - 1]);
      assert Lower(s)[..|s| - 1] == Lower(s[..|s| - 1]);
      if IsBlank(s[|s| - 1]) {
        TrailOfLower(s[..|s| - 1]);
      }
    }
  }

  /** Trimming and lower-casing commute. */
  lemma TrimLowerCommute(s: string)
    ensures Trim(Lower(s)) == Lower(Trim(s))
  {
    LeadOfLower(s);
    var rest := s[Lead(s)..];
    assert Lower(s)[Lead(s)..] == Lower(rest);
    TrailOfLower(rest);
  }

  lemma LowerIdempotent(s: string)
    ensures Lower(Lower(s)) == Lower(s)
  {
  }

  /** A string with no blank at either end is its own trim. */
  lemma TrimOfTrimmed(s: string)
    requires |s| > 0 ==> !IsBlank(s[0]) && !IsBlank(s[|s| - 1])
    ensures Trim(s) == s
  {
    if |s| > 0 {
      assert Lead(s) == 0;
      assert s[0..] == s;
      assert Trail(s) == 0;
    }
  }

  /** Building a tag from a stored name yields the same name. */
  lemma NormalizeIdempotent(name: string)
    ensures NewTag(NewTag(name).name) == NewTag(name)
  {
    var t := Trim(name);
    TrimLowerCommute(t);
    TrimOfTrimmed(t);
    LowerIdempotent(t);
  }

  /** Inputs equal up to ASCII letter case make the same tag. */
  lemma CaseInsensitive(a: string, b: string)
    requires Lower(a) == Lower(b)
    ensures NewTag(a) == NewTag(b)
  {
    TrimLowerCommute(a);
    TrimLowerCommute(b);
  }

  lemma {:induction false} LeadOfBlankPrefix(pre: string, s: string)
    requires AllBlank(pre)
    ensures Lead(pre + s) == |pre| + Lead(s)
  {
    if |pre| > 0 {
      assert (pre + s)[1..] == pre[1..] + s;
      LeadOfBlankPrefix(pre[1..], s);
    } else {
      assert pre + s == s;
    }
  }

  lemma {:induction false} TrailOfBlankSuffix(s: string, post: string)
    requires AllBlank(post)
    ensures Trail(s + post) == Trail(s) + |post|
  {
    if |post| > 0 {
      var shorter := post[..|post| - 1];
      assert (s + post)[..|s + post| - 1] == s + shorter;
      TrailOfBlankSuffix(s, shorter);
    } else {
      assert s + post == s;
    }
  }

  lemma {:induction false} LeadOfExtension(s: string, post: string)
    requires Lead(s) < |s|
    ensures Lead(s + post) == Lead(s)
  {
    if IsBlank(s[0]) {
      assert (s + post)[1..] == s[1..] + post;
      LeadOfExtension(s[1..], post);
    }
  }

  /** A string of blanks trims to the empty string. */
  lemma TrimOfBlanks(s: string)
    requires AllBlank(s)
    ensures Trim(s) == []
  {
  }

  lemma BlanksConcat(pre: string, s: string, post: string)
    requires AllBlank(pre) && AllBlank(s) && AllBlank(post)
    ensures AllBlank(pre + s + post)
  {
    var whole := pre + s + post;
    forall i | 0 <= i < |whole| ensures IsBlank(whole[i]) {
      if i < |pre| {
        assert whole[i] == pre[i];
      } else if i < |pre| + |s| {
        assert whole[i] == s[i - |pre|];
      } else {
        assert whole[i] == post[i - |pre| - |s|];
      }
    }
  }

  /** After blanks in front, the part of an input past its leading blanks ends with `post`. */
  lemma RestAfterLead(pre: string, s: string, post: string)
    requires AllBlank(pre) && Lead(s) < |s|
    ensures (pre + s + post)[Lead(pre + s + post)..] == s[Lead(s)..] + post
  {
    var tail := s + post;
    assert pre + s + post == pre + tail;
    LeadOfBlankPrefix(pre, tail);
    LeadOfExtension(s, post);
    assert (pre + tail)[|pre|..] == tail;
    assert tail[Lead(s)..] == s[Lead(s)..] + post;
  }

  /** Trailing blanks appended after the trimmed part are dropped with the rest. */
  lemma TrimRestWithSuffix(rest: string, post: string)
    requires AllBlank(post)
    ensures var whole := rest + post; whole[..|whole| - Trail(whole)] == rest[..|rest| - Trail(rest)]
  {
    TrailOfBlankSuffix(rest, post);
    var whole := rest + post;
    assert |whole| - Trail(whole) == |rest| - Trail(rest);
  }

  lemma TrimAroundNonBlank(pre: string, s: string, post: string)
    requires AllBlank(pre) && AllBlank(post) && Lead(s) < |s|
    ensures Trim(pre + s + post) == Trim(s)
  {
    RestAfterLead(pre, s, post);
    TrimRestWithSuffix(s[Lead(s)..], post);
  }

  /** Blanks around an input do not change the tag it makes. */
  lemma SurroundingBlanksIgnored(pre: string, s: string, post: string)
    requires AllBlank(pre) && AllBlank(post)
    ensures NewTag(pre + s + post) == NewTag(s)
  {
    if Lead(s) == |s| {
      BlanksConcat(pre, s, post);
      TrimOfBlanks(pre + s + post);
      TrimOfBlanks(s);
    } else {
      TrimAroundNonBlank(pre, s, post);
    }
  }
}
