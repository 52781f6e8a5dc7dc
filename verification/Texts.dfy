/** White space around texts, leading identifiers, and texts within texts. */
module Texts {
  /** White space of `str.strip` among the characters of ASCII. */
  predicate IsSpace(c: char)
  {
    c == ' ' || '\t' <= c <= '\r' || '\U{1C}' <= c <= '\U{1F}'
  }

  /** White space, one character after the other. */
  lemma {:induction false} SpaceCharacters(c: char)
    ensures IsSpace(c) <==> c in " \t\n\U{B}\U{C}\r\U{1C}\U{1D}\U{1E}\U{1F}"
  {
  }

  function Strip(s: string): string
    decreases |s|
  {
    if |s| > 0 && IsSpace(s[0]) then Strip(s[1..])
    else if |s| > 0 && IsSpace(s[|s| - 1]) then Strip(s[..|s| - 1])
    else s
  }

  /** Everything outside `i .. j` is white space, and nothing at its ends is. */
  ghost predicate Inside(s: string, i: nat, j: nat)
  {
    && i <= j <= |s| && (forall x :: 0 <= x < i || j <= x < |s| ==> IsSpace(s[x]))
    && (i < j ==> !IsSpace(s[i]) && !IsSpace(s[j - 1]))
  }

  /** `r` is `s` without the white space around it. */
  ghost predicate Stripped(s: string, r: string)
  {
    exists i: nat, j: nat :: Inside(s, i, j) && r == s[i..j]
  }

  lemma {:induction false} StripBounds(s: string) returns (i: nat, j: nat)
    ensures Inside(s, i, j) && Strip(s) == s[i..j]
    decreases |s|
  {
    if |s| > 0 && IsSpace(s[0]) {
      i, j := StripBounds(s[1..]);
      assert s[1..][i..j] == s[i + 1..j + 1];
      forall x | 1 <= x < i + 1 || j + 1 <= x < |s|
        ensures IsSpace(s[x])
      {
        assert s[x] == s[1..][x - 1];
      }
      i, j := i + 1, j + 1;
    } else if |s| > 0 && IsSpace(s[|s| - 1]) {
      var n := |s| - 1;
      i, j := StripBounds(s[..n]);
      assert s[..n][i..j] == s[i..j];
      forall x | 0 <= x < i || j <= x < n
        ensures IsSpace(s[x])
      {
        assert s[x] == s[..n][x];
      }
    } else {
      i, j := 0, |s|;
      assert s[0..|s|] == s;
    }
  }

  /** `Strip` yields that, and nothing else is. */
  lemma {:induction false} StripExactly(s: string, r: string)
    ensures Strip(s) == r <==> Stripped(s, r)
  {
    var k, l := StripBounds(s);
    hide Strip;
    if Stripped(s, r) {
      var i: nat, j: nat :| Inside(s, i, j) && r == s[i..j];
      OneInside(s, i, j, k, l);
    }
  }

  lemma {:induction false} OneInside(s: string, i: nat, j: nat, k: nat, l: nat)
    requires Inside(s, i, j) && Inside(s, k, l)
    ensures s[i..j] == s[k..l]
  {
  }

  predicate IsWordStart(c: char)
  {
    'a' <= c <= 'z' || 'A' <= c <= 'Z' || c == '_'
  }

  predicate IsNameChar(c: char)
  {
    IsWordStart(c) || '0' <= c <= '9' || c == '.'
  }

  /** The characters of names, one by one. */
  lemma {:induction false} NameCharacters(c: char)
    ensures IsWordStart(c) <==> c == '_' || c in "abcdefghijklm" || c in "nopqrstuvwxyz" || IsUpper(c)
    ensures IsUpper(c) <==> c in "ABCDEFGHIJKLM" || c in "NOPQRSTUVWXYZ"
    ensures IsNameChar(c) <==> IsWordStart(c) || c in "0123456789."
  {
    LowerCharacters(c);
    UpperCharacters(c);
    DigitCharacters(c);
  }

  predicate IsLower(c: char)
  {
    'a' <= c <= 'z'
  }

  predicate IsUpper(c: char)
  {
    'A' <= c <= 'Z'
  }

  lemma {:induction false} LowerCharacters(c: char)
    ensures IsLower(c) <==> c in "abcdefghijklm" || c in "nopqrstuvwxyz"
  {
  }

  lemma {:induction false} UpperCharacters(c: char)
    ensures IsUpper(c) <==> c in "ABCDEFGHIJKLM" || c in "NOPQRSTUVWXYZ"
  {
  }

  lemma {:induction false} DigitCharacters(c: char)
    ensures '0' <= c <= '9' || c == '.' <==> c in "0123456789."
  {
  }

  /** The longest prefix of name characters. */
  function NamePrefix(s: string): string
  {
    if |s| > 0 && IsNameChar(s[0]) then [s[0]] + NamePrefix(s[1..]) else ""
  }

  function Concat(parts: seq<string>): string
  {
    if |parts| == 0 then "" else parts[0] + Concat(parts[1..])
  }

  lemma {:induction false} ConcatSplits(a: seq<string>, b: seq<string>)
    ensures Concat(a + b) == Concat(a) + Concat(b)
    ensures |a| == 1 ==> Concat(a) == a[0]
    decreases |a|
  {
    if |a| == 0 {
      assert a + b == b;
    } else {
      assert (a + b)[1..] == a[1..] + b;
      ConcatSplits(a[1..], b);
    }
  }

  /** `name` is the identifier that `s` starts with, all of it: no name character follows. */
  ghost predicate LeadingName(name: string, s: string)
  {
    && 0 < |name| <= |s| && s[..|name|] == name && IsWordStart(name[0])
    && (forall i :: 0 <= i < |name| ==> IsNameChar(s[i]))
    && (|name| < |s| ==> !IsNameChar(s[|name|]))
  }

  lemma {:induction false} PrefixIsMaximal(s: string)
    ensures NamePrefix(s) <= s && forall i :: 0 <= i < |NamePrefix(s)| ==> IsNameChar(NamePrefix(s)[i])
    ensures |NamePrefix(s)| < |s| ==> !IsNameChar(s[|NamePrefix(s)|])
  {
    if |s| > 0 && IsNameChar(s[0]) {
      PrefixIsMaximal(s[1..]);
    }
  }

  lemma {:induction false} OneLeadingName(a: string, b: string, s: string)
    requires LeadingName(a, s) && LeadingName(b, s)
    ensures a == b
  {
  }

  lemma {:induction false} LeadingNameExactly(s: string, name: string)
    ensures LeadingName(name, s) <==> |s| > 0 && IsWordStart(s[0]) && NamePrefix(s) == name
  {
    PrefixIsMaximal(s);
    hide NamePrefix;
    var prefix := NamePrefix(s);
    if |s| > 0 && IsWordStart(s[0]) {
      assert |prefix| > 0 && prefix[0] == s[0];
      assert forall i :: 0 <= i < |prefix| ==> s[i] == prefix[i];
      assert LeadingName(prefix, s);
      if LeadingName(name, s) {
        OneLeadingName(name, prefix, s);
      }
    }
  }

  /** The text before and after the first arrow; everything is before when there is none. */
  function Partition(s: string): (string, string)
    decreases |s|
  {
    if |s| == 0 then ("", "")
    else if "->" <= s then ("", s[2..])
    else
      var (before, after) := Partition(s[1..]);
      ([s[0]] + before, after)
  }

  predicate Contains(s: string, word: string)
    decreases |s|
  {
    word <= s || (|s| > 0 && Contains(s[1..], word))
  }

  /** `word` stands in `s` at `p`. */
  ghost predicate StandsAt(s: string, word: string, p: nat)
  {
    p + |word| <= |s| && s[p..p + |word|] == word
  }

  lemma {:induction false} ContainsExactly(s: string, word: string)
    ensures Contains(s, word) <==> exists p: nat :: StandsAt(s, word, p)
    decreases |s|
  {
    if word <= s {
      assert StandsAt(s, word, 0);
    } else if |s| > 0 {
      ContainsExactly(s[1..], word);
      StandsBehind(s, word);
      if p: nat :| StandsAt(s, word, p) {
        assert p > 0 && StandsAt(s[1..], word, p - 1);
      }
    }
  }

  lemma {:induction false} SliceBehind(s: string, a: nat, b: nat)
    requires a <= b < |s|
    ensures s[1..][a..b] == s[a + 1..b + 1]
  {
  }

  lemma {:induction false} StandsBehind(s: string, word: string)
    requires |s| > 0
    ensures forall p: nat :: StandsAt(s, word, p + 1) <==> StandsAt(s[1..], word, p)
  {
    forall p: nat
      ensures StandsAt(s, word, p + 1) <==> StandsAt(s[1..], word, p)
    {
      if p + |word| <= |s| - 1 {
        SliceBehind(s, p, p + |word|);
      }
    }
  }

  /** The first arrow of a schema is at `p`. */
  ghost predicate FirstArrow(s: string, p: nat)
  {
    StandsAt(s, "->", p) && forall i: nat :: i < p ==> !StandsAt(s, "->", i)
  }

  lemma {:induction false} PartitionAt(s: string, p: nat)
    requires FirstArrow(s, p)
    ensures Partition(s) == (s[..p], s[p + 2..])
    decreases |s|
  {
    if "->" <= s {
      assert StandsAt(s, "->", 0);
      assert p == 0 && s[..0] == "";
    } else {
      assert !StandsAt(s, "->", 0);
      StandsBehind(s, "->");
      PartitionAt(s[1..], p - 1);
      assert s[..p] == [s[0]] + s[1..][..p - 1] && s[p + 2..] == s[1..][p + 1..];
    }
  }

  lemma {:induction false} NoPartition(s: string)
    requires forall p: nat :: !StandsAt(s, "->", p)
    ensures Partition(s) == (s, "")
    decreases |s|
  {
    assert !StandsAt(s, "->", 0);
    if |s| > 0 {
      StandsBehind(s, "->");
      NoPartition(s[1..]);
      assert s == [s[0]] + s[1..];
    }
  }

  lemma {:induction false} EarliestArrow(s: string, p: nat) returns (q: nat)
    requires StandsAt(s, "->", p)
    ensures FirstArrow(s, q)
  {
    q := p;
    while exists i: nat :: i < q && StandsAt(s, "->", i)
      invariant StandsAt(s, "->", q)
      decreases q
    {
      var i: nat :| i < q && StandsAt(s, "->", i);
      q := i;
    }
  }
}
