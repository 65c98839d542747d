/** `TextPreprocessor.preprocess` (preprocessor.py): the falsy-input guard, the conversion of the
    markup to plain text (an opaque function here), the removal of URLs matched by
    `http[s]?://\S+`, the replacement of every whitespace run by one space, and the final strip. */
module Preprocessor {
  import opened Wrappers
  import opened Builtins

  // ---------------------------------------------------------------------------------------------
  // `re.sub(r'http[s]?://\S+', '', text)`

  /** A match of `http[s]?://\S+` starts here: a scheme followed by at least one non-whitespace
      character. */
  predicate UrlStart(s: string) {
    || ("https://" <= s && |s| > 8 && !IsSpace(s[8]))
    || ("http://" <= s && |s| > 7 && !IsSpace(s[7]))
  }

  /** No match of the pattern starts anywhere in `s`. */
  predicate NoUrl(s: string) {
    forall i :: 0 <= i < |s| ==> !UrlStart(s[i..])
  }

  /** The length of the scheme `s` starts with (`https://` or `http://`), 0 if neither. */
  function SchemeLength(s: string): (n: nat)
    ensures n == 0 || n == 7 || n == 8
    ensures n <= |s|
  {
    if "https://" <= s then 8 else if "http://" <= s then 7 else 0
  }

  /** The greedy `\S+`: the longest prefix without whitespace. */
  function RunLength(s: string): (n: nat)
    ensures n <= |s|
    ensures forall k :: 0 <= k < n ==> !IsSpace(s[k])
    ensures n == |s| || IsSpace(s[n])
  {
    if s == [] || IsSpace(s[0]) then 0 else 1 + RunLength(s[1..])
  }

  /** The length of the match at the start of `s`, 0 if none: the scheme and the longest run of
      non-whitespace characters after it, so the match ends at whitespace or at the end. */
  function UrlLength(s: string): (n: nat)
    ensures n > 0 <==> UrlStart(s)
    ensures n <= |s|
    ensures n > 0 ==> SchemeLength(s) < n && (n == |s| || IsSpace(s[n]))
    ensures n > 0 ==> forall k :: SchemeLength(s) <= k < n ==> !IsSpace(s[k])
  {
    var m := SchemeLength(s);
    assert "https://" <= s ==> s[4] == 's';
    assert "http://" <= s ==> s[4] == ':';
    if m == 0 then 0
    else
      var run := RunLength(s[m..]);
      assert forall k :: m <= k < m + run ==> s[k] == s[m..][k - m];
      if run == 0 then 0 else m + run
  }

  /** The substitution: from left to right, each match found is deleted and the scan resumes after
      it; every other character is kept. */
  function RemoveUrls(s: string): (r: string)
    ensures |r| <= |s|
    decreases |s|
  {
    if s == [] then []
    else
      var n := UrlLength(s);
      if n > 0 then RemoveUrls(s[n..]) else [s[0]] + RemoveUrls(s[1..])
  }

  /** A text without a URL is left unchanged, and a text with one gets shorter. */
  lemma {:induction false} RemoveUrlsUnchanged(s: string)
    ensures RemoveUrls(s) == s <==> NoUrl(s)
    decreases |s|
  {
    if s != [] {
      var n := UrlLength(s);
      if n == 0 {
        RemoveUrlsUnchanged(s[1..]);
        NoUrlTail(s);
        assert RemoveUrls(s) == [s[0]] + RemoveUrls(s[1..]);
        assert s == [s[0]] + s[1..];
      } else {
        assert s[0..] == s;
      }
    }
  }

  /** Past a first character that starts no match, `s` has a match exactly when its tail does. */
  lemma NoUrlTail(s: string)
    requires s != [] && UrlLength(s) == 0
    ensures NoUrl(s) <==> NoUrl(s[1..])
  {
    assert s[0..] == s;
    assert forall i :: 1 <= i < |s| ==> s[1..][i - 1..] == s[i..];
    if NoUrl(s) {
      forall j | 0 <= j < |s[1..]| ensures !UrlStart(s[1..][j..]) {
        assert s[1..][j..] == s[j + 1..];
      }
    }
  }

  /** Past the first deleted match, the result starts with whitespace or ends: up to position `j`
      it agrees with the input. */
  lemma {:induction false} AgreeUntilBreak(s: string) returns (j: nat)
    ensures j <= |s| && j <= |RemoveUrls(s)|
    ensures RemoveUrls(s)[..j] == s[..j]
    ensures j == |RemoveUrls(s)| || IsSpace(RemoveUrls(s)[j])
    decreases |s|
  {
    if s == [] {
      j := 0;
    } else if UrlLength(s) > 0 {
      var n := UrlLength(s);
      j := 0;
      if n < |s| {
        StartsWithSpace(s[n..]);
      }
    } else {
      var k := AgreeUntilBreak(s[1..]);
      j := k + 1;
      var x := RemoveUrls(s[1..]);
      assert RemoveUrls(s) == [s[0]] + x;
      PrefixOfCons(s[0], x, s[1..], k);
      assert [s[0]] + s[1..] == s;
      if k < |x| {
        assert ([s[0]] + x)[k + 1] == x[k];
      }
    }
  }

  /** A text starting with whitespace loses no leading character to the substitution. */
  lemma StartsWithSpace(s: string)
    requires s != [] && IsSpace(s[0])
    ensures RemoveUrls(s) != [] && RemoveUrls(s)[0] == s[0]
  {
    assert !UrlStart(s);
  }

  /** The scheme has no whitespace in it. */
  lemma SchemeVisible(x: string)
    ensures forall k :: 0 <= k < SchemeLength(x) ==> !IsSpace(x[k])
  {
    if "https://" <= x {
      assert forall k :: 0 <= k < 8 ==> x[k] == "https://"[k];
    } else if "http://" <= x {
      assert forall k :: 0 <= k < 7 ==> x[k] == "http://"[k];
    }
  }

  /** Two texts that agree on more than a scheme start with the same scheme. */
  lemma SchemeAgree(x: string, y: string, n: nat)
    requires 0 < SchemeLength(x) < n <= |x| && n <= |y| && x[..n] == y[..n]
    ensures SchemeLength(y) == SchemeLength(x)
  {
    assert x[..8] == x[..n][..8] == y[..n][..8] == y[..8];
    assert x[..7] == x[..n][..7] == y[..n][..7] == y[..7];
  }

  /** Whether a match starts at the front depends only on the characters up to the first
      whitespace. */
  lemma UrlStartAgree(x: string, y: string, m: nat)
    requires m <= |x| && m <= |y| && x[..m] == y[..m]
    requires m == |x| || IsSpace(x[m])
    requires UrlStart(x)
    ensures UrlStart(y)
  {
    var n := UrlLength(x);
    var scheme := SchemeLength(x);
    SchemeVisible(x);
    assert m >= n;
    assert x[..n] == x[..m][..n] == y[..m][..n] == y[..n];
    SchemeAgree(x, y, n);
    assert x[scheme] == x[..n][scheme] == y[..n][scheme] == y[scheme];
  }

  lemma PrefixOfCons(c: char, x: string, y: string, k: nat)
    requires k <= |x| && k <= |y| && x[..k] == y[..k]
    ensures ([c] + x)[..k + 1] == ([c] + y)[..k + 1]
  {
    assert ([c] + x)[..k + 1] == [c] + x[..k];
    assert ([c] + y)[..k + 1] == [c] + y[..k];
  }

  /** No match is left after the substitution: deleting a match never brings a new one into
      being, because each deleted match ends at whitespace or at the end. */
  lemma {:induction false} NoUrlRemains(s: string)
    ensures NoUrl(RemoveUrls(s))
    decreases |s|
  {
    if s != [] {
      var n := UrlLength(s);
      if n > 0 {
        NoUrlRemains(s[n..]);
      } else {
        NoUrlRemains(s[1..]);
        FrontNotUrl(s);
        NoUrlCons(s[0], RemoveUrls(s[1..]));
      }
    }
  }

  /** A kept first character does not start a match in the result either. */
  lemma FrontNotUrl(s: string)
    requires s != [] && UrlLength(s) == 0
    ensures !UrlStart([s[0]] + RemoveUrls(s[1..]))
  {
    var k := AgreeUntilBreak(s[1..]);
    ConsAgree(s[0], RemoveUrls(s[1..]), s[1..], k);
    assert [s[0]] + s[1..] == s;
  }

  /** Putting the same character in front of two texts that agree up to whitespace in the first
      keeps a match at the front of the first one a match of the second. */
  lemma ConsAgree(c: char, x: string, y: string, k: nat)
    requires k <= |x| && k <= |y| && x[..k] == y[..k]
    requires k == |x| || IsSpace(x[k])
    ensures UrlStart([c] + x) ==> UrlStart([c] + y)
  {
    if UrlStart([c] + x) {
      PrefixOfCons(c, x, y, k);
      assert k + 1 == |[c] + x| || ([c] + x)[k + 1] == x[k];
      UrlStartAgree([c] + x, [c] + y, k + 1);
    }
  }

  lemma NoUrlCons(c: char, rest: string)
    requires NoUrl(rest) && !UrlStart([c] + rest)
    ensures NoUrl([c] + rest)
  {
    var r := [c] + rest;
    forall i | 1 <= i < |r| ensures !UrlStart(r[i..]) {
      assert r[i..] == rest[i - 1..];
    }
  }

  /** The greedy run stops at the first whitespace, whatever follows it. */
  lemma {:induction false} RunLengthBeforeSpace(x: string, c: char, b: string)
    requires IsSpace(c)
    ensures RunLength(x + [c] + b) == RunLength(x)
    decreases |x|
  {
    if x == [] {
      assert (x + [c] + b)[0] == c;
    } else {
      assert (x + [c] + b)[0] == x[0];
      if !IsSpace(x[0]) {
        assert (x + [c] + b)[1..] == x[1..] + [c] + b;
        RunLengthBeforeSpace(x[1..], c, b);
      }
    }
  }

  /** A scheme cannot contain whitespace, so `a + [c] + b` starts with a scheme exactly when `a`
      does. */
  lemma SchemeBeforeSpace(a: string, c: char, b: string)
    requires IsSpace(c)
    ensures SchemeLength(a + [c] + b) == SchemeLength(a) <= |a|
  {
    var s := a + [c] + b;
    assert s[|a|] == c;
    assert |a| >= 8 ==> s[..8] == a[..8];
    assert |a| >= 7 ==> s[..7] == a[..7];
    assert |a| < 8 ==> !("https://" <= s);
    assert |a| < 7 ==> !("http://" <= s);
  }

  /** A match at the front of `a` is the match at the front of `a + [c] + b` when `c` is
      whitespace: a match never reaches past whitespace. */
  lemma UrlLengthBeforeSpace(a: string, c: char, b: string)
    requires IsSpace(c)
    ensures UrlLength(a + [c] + b) == UrlLength(a)
  {
    var s := a + [c] + b;
    SchemeBeforeSpace(a, c, b);
    var m := SchemeLength(a);
    if m > 0 {
      DropFromAppend(a, [c] + b, m);
      assert s == a + ([c] + b);
      assert s[m..] == a[m..] + [c] + b;
      RunLengthBeforeSpace(a[m..], c, b);
    }
  }

  /** The substitution works word by word: a whitespace character is kept, and the text on each
      side of it is substituted on its own. */
  lemma {:induction false} RemoveUrlsAroundSpace(a: string, c: char, b: string)
    requires IsSpace(c)
    ensures RemoveUrls(a + [c] + b) == RemoveUrls(a) + [c] + RemoveUrls(b)
    decreases |a|, 1
  {
    if a == [] {
      UrlLengthBeforeSpace(a, c, b);
      assert a + [c] + b == [c] + b;
      assert ([c] + b)[1..] == b;
    } else if UrlLength(a) > 0 {
      RemoveUrlsAroundSpaceAfterUrl(a, c, b);
    } else {
      RemoveUrlsAroundSpaceAfterChar(a, c, b);
    }
  }

  lemma {:induction false} RemoveUrlsAroundSpaceAfterUrl(a: string, c: char, b: string)
    requires IsSpace(c) && UrlLength(a) > 0
    ensures RemoveUrls(a + [c] + b) == RemoveUrls(a) + [c] + RemoveUrls(b)
    decreases |a|, 0
  {
    var s := a + [c] + b;
    var n := UrlLength(a);
    UrlLengthBeforeSpace(a, c, b);
    DropFromAppend(a, [c] + b, n);
    assert s == a + ([c] + b);
    assert s[n..] == a[n..] + [c] + b;
    RemoveUrlsAroundSpace(a[n..], c, b);
  }

  lemma {:induction false} RemoveUrlsAroundSpaceAfterChar(a: string, c: char, b: string)
    requires IsSpace(c) && a != [] && UrlLength(a) == 0
    ensures RemoveUrls(a + [c] + b) == RemoveUrls(a) + [c] + RemoveUrls(b)
    decreases |a|, 0
  {
    var s := a + [c] + b;
    UrlLengthBeforeSpace(a, c, b);
    assert s[0] == a[0];
    assert s[1..] == a[1..] + [c] + b;
    RemoveUrlsAroundSpace(a[1..], c, b);
  }

  /** The first position of `w` where a match starts, `|w|` if there is none. */
  function FirstUrl(w: string): (i: nat)
    ensures i <= |w|
    ensures forall j :: 0 <= j < i ==> !UrlStart(w[j..])
    ensures i < |w| ==> UrlStart(w[i..])
  {
    if w == [] then 0
    else if UrlStart(w) then (assert w[0..] == w; 0)
    else
      var i := 1 + FirstUrl(w[1..]);
      assert forall j :: 1 <= j <= |w| ==> w[1..][j - 1..] == w[j..];
      assert w[0..] == w;
      i
  }

  /** Within a word (no whitespace), the first match runs to the end of the word, so the word
      keeps exactly the characters before it. */
  lemma {:induction false} RemoveUrlsInWord(w: string)
    requires forall k :: 0 <= k < |w| ==> !IsSpace(w[k])
    ensures RemoveUrls(w) == w[..FirstUrl(w)]
    decreases |w|
  {
    if w != [] {
      if UrlStart(w) {
        assert UrlLength(w) == |w|;
        assert w[|w|..] == [];
      } else {
        RemoveUrlsInWord(w[1..]);
        assert w[..FirstUrl(w)] == [w[0]] + w[1..][..FirstUrl(w[1..])];
      }
    }
  }

  /** A text that is one URL disappears. */
  lemma UrlWordGoes()
    ensures RemoveUrls("http://x") == []
  {
    assert UrlLength("http://x") == 8;
    assert "http://x"[8..] == [];
  }

  lemma UrlThenWord()
    ensures RemoveUrls("http://x" + [' '] + "now") == [' '] + "now"
  {
    RemoveUrlsAroundSpace("http://x", ' ', "now");
    UrlWordGoes();
    NoUrlWord("now");
  }

  /** `"see http://x now"` loses the URL and keeps both spaces around it. */
  lemma UrlInSentence()
    ensures RemoveUrls("see" + [' '] + ("http://x" + [' '] + "now")) == "see" + [' '] + ([' '] + "now")
  {
    RemoveUrlsAroundSpace("see", ' ', "http://x" + [' '] + "now");
    UrlThenWord();
    NoUrlWord("see");
  }

  /** A text with no `h` in it is left unchanged. */
  lemma NoUrlWord(w: string)
    requires 'h' !in w
    ensures RemoveUrls(w) == w
  {
    forall i | 0 <= i < |w| ensures !UrlStart(w[i..]) {
      assert w[i..][0] == w[i] && w[i] in w;
    }
    RemoveUrlsUnchanged(w);
  }

  // ---------------------------------------------------------------------------------------------
  // `re.sub(r'\s+', ' ', text).strip()`

  /** The substitution of one space for every maximal whitespace run. */
  function Collapse(s: string): (r: string)
    ensures |r| <= |s|
    ensures r == [] <==> s == []
    ensures r != [] ==> (IsSpace(r[0]) <==> IsSpace(s[0]))
    decreases |s|
  {
    if s == [] then []
    else if IsSpace(s[0]) then
      var rest := StripLeft(s);
      assert |rest| < |s|;
      [' '] + Collapse(rest)
    else [s[0]] + Collapse(s[1..])
  }

  /** The cleanup of `preprocess`: collapse, then strip. */
  function Clean(s: string): string {
    Strip(Collapse(s))
  }

  /** Every whitespace character is a plain space and none is next to another. */
  predicate SingleSpaced(t: string) {
    && (forall i :: 0 <= i < |t| && IsSpace(t[i]) ==> t[i] == ' ')
    && (forall i :: 0 <= i < |t| - 1 ==> !IsSpace(t[i]) || !IsSpace(t[i + 1]))
  }

  /** What `preprocess` promises of its output: single-spaced, no whitespace at either end. */
  predicate Normalized(t: string) {
    SingleSpaced(t) && (t == [] || (!IsSpace(t[0]) && !IsSpace(t[|t| - 1])))
  }

  /** The non-whitespace characters of `s`, in order. */
  function Visible(s: string): string {
    if s == [] then [] else (if IsSpace(s[0]) then [] else [s[0]]) + Visible(s[1..])
  }

  lemma {:induction false} VisibleAppend(a: string, b: string)
    ensures Visible(a + b) == Visible(a) + Visible(b)
    decreases |a|
  {
    if a == [] {
      assert a + b == b;
    } else {
      assert (a + b)[0] == a[0];
      assert (a + b)[1..] == a[1..] + b;
      VisibleAppend(a[1..], b);
      assert Visible(a + b) == (if IsSpace(a[0]) then [] else [a[0]]) + Visible(a[1..] + b);
    }
  }

  lemma {:induction false} VisibleOfSpace(s: string)
    requires AllSpace(s)
    ensures Visible(s) == []
    decreases |s|
  {
    if s != [] {
      VisibleOfSpace(s[1..]);
    }
  }

  /** The collapse leaves every whitespace character a single plain space. */
  lemma {:induction false} CollapseSingleSpaced(s: string)
    ensures SingleSpaced(Collapse(s))
    decreases |s|
  {
    if s != [] {
      var r := Collapse(s);
      if IsSpace(s[0]) {
        var rest := StripLeft(s);
        CollapseSingleSpaced(rest);
        assert r == [' '] + Collapse(rest);
        assert forall i :: 1 <= i < |r| ==> r[i] == Collapse(rest)[i - 1];
      } else {
        CollapseSingleSpaced(s[1..]);
        assert r == [s[0]] + Collapse(s[1..]);
        assert forall i :: 1 <= i < |r| ==> r[i] == Collapse(s[1..])[i - 1];
      }
    }
  }

  /** The collapse keeps every non-whitespace character, in order. */
  lemma {:induction false} CollapseVisible(s: string)
    ensures Visible(Collapse(s)) == Visible(s)
    decreases |s|
  {
    if s != [] {
      if IsSpace(s[0]) {
        var rest := StripLeft(s);
        CollapseVisible(rest);
        var cut := |s| - |rest|;
        assert s == s[..cut] + rest;
        VisibleAppend(s[..cut], rest);
        VisibleOfSpace(s[..cut]);
        VisibleAppend([' '], Collapse(rest));
      } else {
        CollapseVisible(s[1..]);
        VisibleAppend([s[0]], Collapse(s[1..]));
        assert Visible([s[0]]) == [s[0]];
      }
    }
  }

  /** A single-spaced text is left unchanged by the collapse. */
  lemma {:induction false} CollapseSingleSpacedFixed(t: string)
    requires SingleSpaced(t)
    ensures Collapse(t) == t
    decreases |t|
  {
    if t != [] {
      SliceSingleSpaced(t, 1, |t|);
      assert t[1..|t|] == t[1..];
      CollapseSingleSpacedFixed(t[1..]);
      if IsSpace(t[0]) {
        assert t[1..] == [] || !IsSpace(t[1..][0]);
        assert LeadingSpaces(t[1..]) == 0;
        assert StripLeft(t) == t[1..];
      }
      assert t == [t[0]] + t[1..];
    }
  }

  /** The leading whitespace of `a + t`: that of `a` when `a` is not all whitespace, otherwise all
      of `a` and the leading whitespace of `t`. */
  lemma LeadingSpacesAppend(a: string, t: string)
    ensures LeadingSpaces(a) < |a| ==> LeadingSpaces(a + t) == LeadingSpaces(a)
    ensures LeadingSpaces(a) == |a| ==> LeadingSpaces(a + t) == |a| + LeadingSpaces(t)
  {
    var s := a + t;
    var n, m := LeadingSpaces(a), LeadingSpaces(s);
    assert forall k :: 0 <= k < |a| ==> s[k] == a[k];
    assert forall k :: |a| <= k < |s| ==> s[k] == t[k - |a|];
    if n < |a| {
      assert IsSpace(s[m]) ==> m >= n;
      assert !IsSpace(s[n]);
    } else {
      var p := LeadingSpaces(t);
      assert |a| + p < |s| ==> !IsSpace(s[|a| + p]);
      assert forall k :: 0 <= k < |a| + p ==> IsSpace(s[k]);
    }
  }

  /** A whitespace run with nothing else becomes one space. */
  lemma CollapseRun(w: string)
    requires w != [] && AllSpace(w)
    ensures Collapse(w) == " "
  {
    assert LeadingSpaces(w) == |w|;
    assert StripLeft(w) == [];
  }

  lemma DropFromAppend(a: string, t: string, n: nat)
    requires n <= |a|
    ensures (a + t)[n..] == a[n..] + t
  {
  }

  /** Stripping the left of `a + t` when `t` starts with a non-whitespace character: the
      whitespace stops in `a`, or at the start of `t` when `a` is all whitespace. */
  lemma StripLeftBeforeVisible(a: string, t: string)
    requires t != [] && !IsSpace(t[0])
    ensures LeadingSpaces(a) == |a| ==> StripLeft(a + t) == t
    ensures LeadingSpaces(a) < |a| ==> StripLeft(a + t) == StripLeft(a) + t
  {
    var n := LeadingSpaces(a);
    LeadingSpacesAppend(a, t);
    assert LeadingSpaces(t) == 0;
    DropFromAppend(a, t, n);
  }

  /** A non-whitespace character is kept, and the text on each side of it is collapsed on its
      own: runs are never merged across it, and no run is dropped. */
  lemma {:induction false} CollapseAroundVisible(a: string, x: char, b: string)
    requires !IsSpace(x)
    ensures Collapse(a + [x] + b) == Collapse(a) + [x] + Collapse(b)
    decreases |a|, 1
  {
    if a == [] {
      assert a + [x] + b == [x] + b;
      assert ([x] + b)[1..] == b;
    } else if IsSpace(a[0]) {
      CollapseAroundVisibleAfterRun(a, x, b);
    } else {
      CollapseAroundVisibleAfterChar(a, x, b);
    }
  }

  lemma {:induction false} CollapseAroundVisibleAfterChar(a: string, x: char, b: string)
    requires !IsSpace(x) && a != [] && !IsSpace(a[0])
    ensures Collapse(a + [x] + b) == Collapse(a) + [x] + Collapse(b)
    decreases |a|, 0
  {
    var s := a + [x] + b;
    assert s[0] == a[0];
    assert s[1..] == a[1..] + [x] + b;
    CollapseAroundVisible(a[1..], x, b);
  }

  lemma {:induction false} CollapseAroundVisibleAfterRun(a: string, x: char, b: string)
    requires !IsSpace(x) && a != [] && IsSpace(a[0])
    ensures Collapse(a + [x] + b) == Collapse(a) + [x] + Collapse(b)
    decreases |a|, 0
  {
    var s := a + [x] + b;
    assert s[0] == a[0];
    assert s == a + ([x] + b);
    StripLeftBeforeVisible(a, [x] + b);
    if LeadingSpaces(a) == |a| {
      assert StripLeft(a) == [];
      assert ([x] + b)[1..] == b;
    } else {
      assert StripLeft(a) + ([x] + b) == StripLeft(a) + [x] + b;
      CollapseAroundVisible(StripLeft(a), x, b);
    }
  }

  /** `"a  b"` becomes `"a b"`: the run of two spaces is one space. */
  lemma CollapseTwoSpaces()
    ensures Collapse(['a'] + "  " + ['b']) == ['a', ' ', 'b']
  {
    var run := "  ";
    CollapseRun(run);
    CollapseAroundVisible([], 'a', run);
    assert [] + ['a'] + run == ['a'] + run;
    assert Collapse(['a'] + run) == ['a'] + " " by {
      assert Collapse([]) == [];
    }
    CollapseAroundVisible(['a'] + run, 'b', []);
    assert ['a'] + run + ['b'] + [] == ['a'] + run + ['b'];
    assert Collapse(['a'] + run + ['b']) == ['a'] + " " + ['b'] by {
      assert Collapse([]) == [];
    }
  }

  /** A slice of a single-spaced text is single-spaced. */
  lemma SliceSingleSpaced(t: string, i: nat, j: nat)
    requires i <= j <= |t| && SingleSpaced(t)
    ensures SingleSpaced(t[i..j])
  {
    assert forall k :: 0 <= k < j - i ==> t[i..j][k] == t[i + k];
  }

  /** Stripping a single-spaced text leaves it single-spaced, with no whitespace at either end. */
  lemma StripNormalized(c: string)
    requires SingleSpaced(c)
    ensures Normalized(Strip(c))
  {
    var i := StripOffset(c);
    SliceSingleSpaced(c, i, i + |Strip(c)|);
  }

  lemma SplitThree(c: string, i: nat, j: nat)
    requires i <= j <= |c|
    ensures c == c[..i] + c[i..j] + c[j..]
  {
  }

  /** Stripping keeps every non-whitespace character, in order. */
  lemma StripVisible(c: string)
    ensures Visible(Strip(c)) == Visible(c)
  {
    var i := StripOffset(c);
    var r := Strip(c);
    SplitThree(c, i, i + |r|);
    VisibleOfPadded(c[..i], r, c[i + |r|..]);
  }

  /** Whitespace around a text adds nothing visible. */
  lemma VisibleOfPadded(p: string, r: string, q: string)
    requires AllSpace(p) && AllSpace(q)
    ensures Visible(p + r + q) == Visible(r)
  {
    VisibleAppend(p + r, q);
    VisibleAppend(p, r);
    VisibleOfSpace(p);
    VisibleOfSpace(q);
  }

  /** The cleanup yields single-spaced text with no whitespace at either end. */
  lemma CleanNormalized(s: string)
    ensures Normalized(Clean(s))
  {
    CollapseSingleSpaced(s);
    StripNormalized(Collapse(s));
  }

  /** The cleanup keeps every non-whitespace character, in order, and never lengthens the text. */
  lemma CleanVisible(s: string)
    ensures Visible(Clean(s)) == Visible(s)
    ensures |Clean(s)| <= |s|
  {
    CollapseVisible(s);
    StripVisible(Collapse(s));
  }

  /** A normalized text is a fixed point of the cleanup; in particular the cleanup is idempotent. */
  lemma CleanFixed(t: string)
    requires Normalized(t)
    ensures Clean(t) == t
  {
    CollapseSingleSpacedFixed(t);
    StripTrimmed(t);
  }

  lemma CleanIdempotent(s: string)
    ensures Clean(Clean(s)) == Clean(s)
  {
    CleanNormalized(s);
    CleanFixed(Clean(s));
  }

  // ---------------------------------------------------------------------------------------------
  // `preprocess`

  /** `preprocess(text)`. `None` stands for every falsy argument other than the empty string
      (`None`, a missing field); `toText` is `str` followed by the markup-to-text conversion and
      the entity unescaping, which are not modelled. */
  function Preprocess(text: Option<string>, toText: string -> string): (r: string)
    ensures text.None? || text.value == [] ==> r == []
  {
    if text.None? || text.value == [] then []
    else Clean(RemoveUrls(toText(text.value)))
  }

  /** The output is single-spaced, with no whitespace at either end. */
  lemma PreprocessNormalized(text: Option<string>, toText: string -> string)
    ensures Normalized(Preprocess(text, toText))
  {
    if text.Some? && text.value != [] {
      var u := RemoveUrls(toText(text.value));
      CleanNormalized(u);
      assert Preprocess(text, toText) == Clean(u);
    } else {
      assert Preprocess(text, toText) == [];
    }
  }

  /** A non-empty argument: the cleaned text carries every visible character of the converted
      text that is not part of a URL, in order; no URL survives the substitution; and the output is
      never longer than the converted text. */
  lemma PreprocessKeeps(text: string, toText: string -> string)
    requires text != []
    ensures var u := RemoveUrls(toText(text));
      && Visible(Preprocess(Some(text), toText)) == Visible(u)
      && NoUrl(u)
      && |Preprocess(Some(text), toText)| <= |toText(text)|
      && (NoUrl(toText(text)) ==> u == toText(text))
  {
    var u := RemoveUrls(toText(text));
    CleanVisible(u);
    NoUrlRemains(toText(text));
    RemoveUrlsUnchanged(toText(text));
  }
}
