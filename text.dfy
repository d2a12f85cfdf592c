/** String operations the handlers rely on, stated over `seq<char>`.
    Python's `str.lower` and the database's case-insensitive matching are
    modelled as ASCII-only folding. That is exact when the lowered text is
    compared with a fixed lower-case ASCII word (a status, `true`, an
    extension). For free text (`IContains` on a search term, the domain of an
    email address) non-ASCII letters are left as they are. */
module Text {

  function LowerChar(c: char): char {
    if 'A' <= c <= 'Z' then (c as int + 32) as char else c
  }

  /** `s.lower()` */
  function Lower(s: string): (r: string)
    ensures |r| == |s|
    ensures forall i :: 0 <= i < |s| ==> r[i] == LowerChar(s[i])
  {
    seq(|s|, i requires 0 <= i < |s| => LowerChar(s[i]))
  }

  /** Lowering twice is lowering once. */
  lemma LowerIdempotent(s: string)
    ensures Lower(Lower(s)) == Lower(s)
  {
  }

  /** `s.endswith(suffix)` */
  predicate EndsWith(s: string, suffix: string) {
    |suffix| <= |s| && s[|s| - |suffix|..] == suffix
  }

  /** `sub in s` (substring test). */
  predicate Contains(s: string, sub: string)
    decreases |s|
  {
    sub <= s || (s != [] && Contains(s[1..], sub))
  }

  /** `sub` occurs in `s` starting at position `k`. */
  predicate OccursAt(s: string, sub: string, k: int) {
    0 <= k <= |s| - |sub| && s[k..k + |sub|] == sub
  }

  /** Occurring at position 0 is being a prefix. */
  lemma OccursAtStart(s: string, sub: string)
    ensures OccursAt(s, sub, 0) <==> sub <= s
  {
  }

  /** Occurring at `k` in `s` is occurring at `k - 1` in its tail. */
  lemma OccursShift(s: string, sub: string, k: int)
    requires s != [] && k >= 1
    ensures OccursAt(s, sub, k) <==> OccursAt(s[1..], sub, k - 1)
  {
    if 0 <= k <= |s| - |sub| {
      var t := s[1..];
      var here, there := s[k..k + |sub|], t[k - 1..k - 1 + |sub|];
      assert here == there by {
        forall j | 0 <= j < |sub| ensures here[j] == there[j] {
          assert there[j] == t[k - 1 + j] == s[k + j];
        }
      }
    }
  }

  /** The recursive substring test agrees with "occurs at some position". */
  lemma {:induction false} ContainsAt(s: string, sub: string)
    ensures Contains(s, sub) <==> exists k :: OccursAt(s, sub, k)
    decreases |s|
  {
    OccursAtStart(s, sub);
    if sub <= s {
    } else if s == [] {
    } else {
      ContainsAt(s[1..], sub);
      if exists k :: OccursAt(s, sub, k) {
        var k :| OccursAt(s, sub, k);
        OccursShift(s, sub, k);
      }
      if exists k :: OccursAt(s[1..], sub, k) {
        var k :| OccursAt(s[1..], sub, k);
        OccursShift(s, sub, k + 1);
      }
    }
  }

  /** The empty string is a substring of everything. */
  lemma EmptyContained(s: string)
    ensures Contains(s, "")
  {
  }

  /** Django's `field__icontains=value`: case-insensitive substring test. */
  predicate IContains(s: string, sub: string) {
    Contains(Lower(s), Lower(sub))
  }

  /** `s.split(sep)[-1]`: the text after the last `sep`, or all of `s` when it has none. */
  function AfterLast(s: string, sep: char): (r: string)
    ensures sep !in r
    ensures EndsWith(s, r)
    ensures |r| < |s| ==> s[|s| - |r| - 1] == sep
    decreases |s|
  {
    if s == [] then []
    else if s[|s| - 1] == sep then []
    else
      var init := s[..|s| - 1];
      var r' := AfterLast(init, sep);
      assert s[|s| - 1 - |r'|..] == init[|init| - |r'|..] + [s[|s| - 1]];
      r' + [s[|s| - 1]]
  }

  /** The text after the last `sep` is shorter than `s` exactly when `s` holds a `sep`. */
  lemma {:induction false} AfterLastShorter(s: string, sep: char)
    ensures |AfterLast(s, sep)| < |s| <==> sep in s
    decreases |s|
  {
    if s != [] {
      var last := s[|s| - 1];
      if last == sep {
        assert last in s;
      } else {
        var init := s[..|s| - 1];
        AfterLastShorter(init, sep);
        assert |AfterLast(s, sep)| == |AfterLast(init, sep)| + 1;
        assert s == init + [last];
        assert sep in s <==> sep in init;
      }
    }
  }

  /** When `b` has no `sep`, the text after the last `sep` of `a + [sep] + b` is `b`. */
  lemma {:induction false} AfterLastSplit(a: string, sep: char, b: string)
    requires sep !in b
    ensures AfterLast(a + [sep] + b, sep) == b
    decreases |b|
  {
    var s := a + [sep] + b;
    if b != [] {
      var init := b[..|b| - 1];
      assert s[..|s| - 1] == a + [sep] + init;
      AfterLastSplit(a, sep, init);
      assert init + [b[|b| - 1]] == b;
    }
  }

  /** Lower-casing changes no character into `c` unless it was `c` or an upper-case letter. */
  lemma LowerKeepsOthers(s: string, c: char)
    requires !('A' <= c <= 'Z') && !('a' <= c <= 'z') && c !in s
    ensures c !in Lower(s)
  {
    forall i | 0 <= i < |s| ensures Lower(s)[i] != c {
      assert s[i] in s;
    }
  }

  /** Python's `str.isspace` on one character. */
  predicate IsSpace(c: char) {
    ('\t' <= c <= '\r') || ('\U{1c}' <= c <= ' ')
    || c == '\U{85}' || c == '\U{a0}' || c == '\U{1680}'
    || ('\U{2000}' <= c <= '\U{200a}') || c == '\U{2028}' || c == '\U{2029}'
    || c == '\U{202f}' || c == '\U{205f}' || c == '\U{3000}'
  }

  function StripLeft(s: string): (r: string)
    ensures |r| <= |s| && r == s[|s| - |r|..]
    ensures r != [] ==> !IsSpace(r[0])
    ensures forall i :: 0 <= i < |s| - |r| ==> IsSpace(s[i])
  {
    if s == [] then [] else if IsSpace(s[0]) then StripLeft(s[1..]) else s
  }

  function StripRight(s: string): (r: string)
    ensures |r| <= |s| && r == s[..|r|]
    ensures r != [] ==> !IsSpace(r[|r| - 1])
    ensures forall i :: |r| <= i < |s| ==> IsSpace(s[i])
  {
    if s == [] then [] else if IsSpace(s[|s| - 1]) then StripRight(s[..|s| - 1]) else s
  }

  /** `s.strip()` with no argument. */
  function Strip(s: string): string {
    StripRight(StripLeft(s))
  }

  /** Stripping leaves nothing exactly when every character is whitespace. */
  lemma StripEmptyIffBlank(s: string)
    ensures Strip(s) == [] <==> forall i :: 0 <= i < |s| ==> IsSpace(s[i])
  {
  }
}
