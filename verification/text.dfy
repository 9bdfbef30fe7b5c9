/** The handful of Python string operations the pipeline relies on:
    substring tests (`sub in s`), `str.replace`, `str.rfind`,
    `os.path.splitext` (POSIX flavour), ASCII `str.lower` and `str(int)`. */
module Text {
  import opened Seqs

  /** `sub` occurs in `s` starting at position `i`. */
  predicate OccursAt(s: string, sub: string, i: nat) {
    i + |sub| <= |s| && s[i..i + |sub|] == sub
  }

  /** Python's `sub in s`. */
  predicate Contains(s: string, sub: string) {
    exists i: nat | i <= |s| - |sub| :: OccursAt(s, sub, i)
  }

  /** A substring that begins with '.' cannot begin inside a stem that has no
      '.', so only the text after such a stem decides the test. */
  lemma ContainsAfterStem(stem: string, t: string, sub: string)
    requires '.' !in stem && |sub| > 0 && sub[0] == '.'
    ensures Contains(stem + t, sub) <==> Contains(t, sub)
  {
    var s := stem + t;
    if Contains(s, sub) {
      var i: nat :| i <= |s| - |sub| && OccursAt(s, sub, i);
      assert s[i] == sub[0];
      assert t[i - |stem|..i - |stem| + |sub|] == s[i..i + |sub|];
      assert OccursAt(t, sub, i - |stem|);
    }
    if Contains(t, sub) {
      var j: nat :| j <= |t| - |sub| && OccursAt(t, sub, j);
      assert s[|stem| + j..|stem| + j + |sub|] == t[j..j + |sub|];
      assert OccursAt(s, sub, |stem| + j);
    }
  }

  /** Python's `s.replace(pat, rep)`: every non-overlapping occurrence of
      `pat`, scanning left to right, is replaced by `rep`. */
  function Replace(s: string, pat: string, rep: string): (r: string)
    requires |pat| > 0
    ensures |s| < |pat| ==> r == s
    decreases |s|
  {
    if |s| < |pat| then s
    else if s[..|pat|] == pat then rep + Replace(s[|pat|..], pat, rep)
    else [s[0]] + Replace(s[1..], pat, rep)
  }

  /** Text without any occurrence of `pat` is left as it is. */
  lemma {:induction false} ReplaceAbsent(s: string, pat: string, rep: string)
    requires |pat| > 0 && !Contains(s, pat)
    ensures Replace(s, pat, rep) == s
    decreases |s|
  {
    if |s| >= |pat| {
      assert !OccursAt(s, pat, 0);
      if Contains(s[1..], pat) {
        var i: nat :| i <= |s[1..]| - |pat| && OccursAt(s[1..], pat, i);
        assert s[i + 1..i + 1 + |pat|] == s[1..][i..i + |pat|];
        assert OccursAt(s, pat, i + 1);
      }
      ReplaceAbsent(s[1..], pat, rep);
    }
  }

  /** A pattern starting with '.' is never matched inside a stem without '.',
      so replacement passes over such a stem unchanged. */
  lemma {:induction false} ReplaceSkipsStem(stem: string, t: string, pat: string, rep: string)
    requires '.' !in stem && |pat| > 0 && pat[0] == '.'
    ensures Replace(stem + t, pat, rep) == stem + Replace(t, pat, rep)
    decreases |stem|
  {
    if stem != [] {
      var s := stem + t;
      if |s| >= |pat| {
        assert s[..|pat|][0] == stem[0] != pat[0];
      }
      assert s[1..] == stem[1..] + t;
      ReplaceSkipsStem(stem[1..], t, pat, rep);
    } else {
      assert stem + t == t;
    }
  }

  /** An occurrence at the very front is replaced and scanning resumes after it. */
  lemma ReplaceFront(t: string, pat: string, rep: string)
    requires |pat| > 0
    ensures Replace(pat + t, pat, rep) == rep + Replace(t, pat, rep)
  {
    var s := pat + t;
    assert s[..|pat|] == pat;
    assert s[|pat|..] == t;
  }

  /** Python's `s.rfind(c)`: the last index holding `c`, or -1. */
  function RFind(s: string, c: char): (r: int)
    ensures -1 <= r < |s|
    ensures r >= 0 ==> s[r] == c
    ensures forall k :: r < k < |s| ==> s[k] != c
    decreases |s|
  {
    if |s| == 0 then -1
    else if s[|s| - 1] == c then |s| - 1
    else RFind(s[..|s| - 1], c)
  }

  /** The last occurrence of `c` is found whatever comes before it. */
  lemma RFindAt(s: string, c: char, i: nat)
    requires i < |s| && s[i] == c && c !in s[i + 1..]
    ensures RFind(s, c) == i
  {
    var r := RFind(s, c);
    assert forall k :: i < k < |s| ==> s[k] == s[i + 1..][k - i - 1];
  }

  /** Python's `c in s` for a character that is absent gives -1 from rfind. */
  lemma RFindAbsent(s: string, c: char)
    requires c !in s
    ensures RFind(s, c) == -1
  {
  }

  /** Some character of `p[lo..hi]` is not a '.'. */
  predicate HasNonDot(p: string, lo: int, hi: int)
    requires 0 <= lo && hi <= |p|
  {
    exists i | lo <= i < hi :: p[i] != '.'
  }

  /** `os.path.splitext` on POSIX: the extension starts at the last '.' of the
      final path component, unless everything before that '.' in the component
      is itself a '.', in which case there is no extension. */
  function SplitExt(p: string): (r: (string, string))
    ensures r.0 + r.1 == p
    ensures r.1 == [] || (r.1[0] == '.' && '.' !in r.1[1..] && '/' !in r.1)
    // an extension is found only after some character of the final component that is not a '.'
    ensures r.1 != [] ==> exists k :: RFind(p, '/') < k < |r.0| && p[k] != '.'
    // none is found only when every '.' of the final component has only '.' before it there
    ensures r.1 == [] ==>
              forall i :: RFind(p, '/') < i < |p| && p[i] == '.' ==>
                forall k :: RFind(p, '/') < k < i ==> p[k] == '.'
  {
    var sep := RFind(p, '/');
    var dot := RFind(p, '.');
    if dot > sep && HasNonDot(p, sep + 1, dot) then
      assert forall k :: dot < k < |p| ==> p[k] != '.';
      (p[..dot], p[dot..])
    else (p, "")
  }

  /** For a plain file name `stem.ext`, splitext splits at the one '.'. */
  lemma SplitExtPlain(stem: string, ext: string)
    requires stem != [] && '.' !in stem && '/' !in stem
    requires '.' !in ext && '/' !in ext
    ensures SplitExt(stem + "." + ext) == (stem, "." + ext)
  {
    var p := stem + "." + ext;
    assert p[|stem| + 1..] == ext;
    RFindAt(p, '.', |stem|);
    assert '/' !in p by {
      forall k | 0 <= k < |p| ensures p[k] != '/' {
        if k < |stem| { assert p[k] == stem[k]; }
        else if k > |stem| { assert p[k] == ext[k - |stem| - 1]; }
      }
    }
    RFindAbsent(p, '/');
    assert p[0] == stem[0] != '.';
    assert HasNonDot(p, 0, |stem|);
    assert p[..|stem|] == stem;
    assert p[|stem|..] == "." + ext;
  }

  /** Text appended after the last occurrence of `c` does not move it. */
  lemma {:induction false} RFindPrefix(s: string, t: string, c: char)
    requires c !in t
    ensures RFind(s + t, c) == RFind(s, c)
    decreases |t|
  {
    if t != [] {
      var u := s + t;
      assert u[|u| - 1] == t[|t| - 1];
      assert u[..|u| - 1] == s + t[..|t| - 1];
      RFindPrefix(s, t[..|t| - 1], c);
    } else {
      assert s + t == s;
    }
  }

  /** `root.ext` splits at the '.' before `ext` whenever the final component
      of `root` holds something other than dots, however many '.' `root`
      itself contains. */
  lemma SplitExtAtLastDot(root: string, ext: string, k: nat)
    requires '.' !in ext && '/' !in ext
    requires RFind(root, '/') < k < |root| && root[k] != '.'
    ensures SplitExt(root + "." + ext) == (root, "." + ext)
  {
    var p := root + "." + ext;
    assert p[|root| + 1..] == ext;
    RFindAt(p, '.', |root|);
    AppendAssoc(root, ".", ext);
    RFindPrefix(root, "." + ext, '/');
    assert p[k] == root[k];
    assert HasNonDot(p, RFind(p, '/') + 1, |root|);
    assert p[..|root|] == root;
    assert p[|root|..] == "." + ext;
  }

  /** A path ending in `.xyz` (no '.' or '/' after the dot) has extension
      `.xyz` or, when its final component is only dots before that, none. */
  lemma SplitExtOfSuffix(root: string, ext: string)
    requires |ext| > 0 && ext[0] == '.' && '.' !in ext[1..] && '/' !in ext
    ensures SplitExt(root + ext).1 == ext || SplitExt(root + ext).1 == ""
  {
    var p := root + ext;
    assert p[|root| + 1..] == ext[1..];
    RFindAt(p, '.', |root|);
    assert p[|root|..] == ext;
  }

  /** ASCII lower-casing of one character. */
  function LowerChar(c: char): char {
    if 'A' <= c <= 'Z' then (c - 'A' + 'a') as char else c
  }

  /** `s.lower()` restricted to ASCII letters. */
  function Lower(s: string): (r: string)
    ensures |r| == |s|
    ensures forall i :: 0 <= i < |s| ==> r[i] == LowerChar(s[i])
  {
    seq(|s|, i requires 0 <= i < |s| => LowerChar(s[i]))
  }

  function DigitChar(d: nat): char
    requires d < 10
  {
    "0123456789"[d]
  }

  function DigitValue(c: char): int {
    (c as int) - ('0' as int)
  }

  predicate IsDigit(c: char) {
    '0' <= c <= '9'
  }

  /** Decimal digits of a natural number, most significant first, no leading zeros. */
  function NatToString(n: nat): (r: string)
    ensures |r| > 0 && forall i :: 0 <= i < |r| ==> IsDigit(r[i])
    ensures |r| > 1 ==> r[0] != '0'
    decreases n
  {
    if n < 10 then [DigitChar(n)] else NatToString(n / 10) + [DigitChar(n % 10)]
  }

  /** Python's `str(n)` for an integer. */
  function IntToString(n: int): (r: string)
    ensures |r| > 0
    ensures n < 0 <==> r[0] == '-'
  {
    if n < 0 then "-" + NatToString(-n) else NatToString(n)
  }

  /** The value of a string of decimal digits. */
  function ParseNat(s: string): int
    decreases |s|
  {
    if s == [] then 0 else ParseNat(s[..|s| - 1]) * 10 + DigitValue(s[|s| - 1])
  }

  /** Python's `int(s)` for an optionally signed decimal numeral. */
  function ParseInt(s: string): int {
    if |s| > 0 && s[0] == '-' then -ParseNat(s[1..]) else ParseNat(s)
  }

  lemma DigitRoundTrip(d: nat)
    requires d < 10
    ensures DigitValue(DigitChar(d)) == d
  {
    assert "0123456789"[d] as int == '0' as int + d;
  }

  lemma {:induction false} ParseNatToString(n: nat)
    ensures ParseNat(NatToString(n)) == n
    decreases n
  {
    DigitRoundTrip(n % 10);
    if n >= 10 {
      var s := NatToString(n / 10) + [DigitChar(n % 10)];
      assert s[..|s| - 1] == NatToString(n / 10);
      ParseNatToString(n / 10);
    } else {
      var s := [DigitChar(n)];
      assert s[..|s| - 1] == [];
    }
  }

  /** `int(str(n)) == n`: the label written for a finger reads back as that finger. */
  lemma IntToStringRoundTrip(n: int)
    ensures ParseInt(IntToString(n)) == n
  {
    if n < 0 {
      var digits := NatToString(-n);
      ParseNatToString(-n);
      assert IntToString(n) == "-" + digits;
      assert ("-" + digits)[1..] == digits;
    } else {
      ParseNatToString(n);
    }
  }

  /** The five finger numbers are written as a single digit. */
  lemma FingerLabel(f: int)
    requires 1 <= f <= 5
    ensures IntToString(f) == [DigitChar(f)]
  {
  }
}
