/** Word counting for the `/post-words` endpoint: `countWords` counts the
    matches of the RE2 pattern `\b\w+\b`, i.e. the maximal runs of ASCII
    word characters, and the handler accepts a text of at least eight words. */
module WordCount {

  /** RE2's `\w`: ASCII letters, digits and underscore. Every other
      character, non-ASCII letters included, separates words. */
  predicate IsWordChar(c: char) {
    ('0' <= c <= '9') || ('A' <= c <= 'Z') || ('a' <= c <= 'z') || c == '_'
  }

  /** A match of `\w+`: a non-empty string of word characters. */
  predicate IsWord(w: string) {
    |w| > 0 && forall i :: 0 <= i < |w| ==> IsWordChar(w[i])
  }

  /** Length of the run of word characters at the front of `s`: the
      longest prefix that `\w+` can match. */
  function RunLength(s: string): (n: nat)
    ensures n <= |s|
    ensures forall i :: 0 <= i < n ==> IsWordChar(s[i])
    ensures n == |s| || !IsWordChar(s[n])
  {
    if s == [] || !IsWordChar(s[0]) then 0 else 1 + RunLength(s[1..])
  }

  /** The matches of `\b\w+\b` in `s`, left to right, as `FindAllString`
      returns them: skip separators, take a maximal run, repeat. */
  function Words(s: string): (ws: seq<string>)
    ensures forall k :: 0 <= k < |ws| ==> IsWord(ws[k])
    ensures |ws| <= |s|
    decreases |s|
  {
    if s == [] then []
    else if !IsWordChar(s[0]) then Words(s[1..])
    else
      var n := RunLength(s);
      [s[..n]] + Words(s[n..])
  }

  /** `countWords`: the number of matches. Each match takes at least one
      character, so there are at most as many as characters. */
  function CountWords(s: string): (n: nat)
    ensures n <= |s|
  {
    |Words(s)|
  }

  /** Position `i` begins a maximal run of word characters. */
  predicate IsRunStart(s: string, i: int) {
    0 <= i < |s| && IsWordChar(s[i]) && (i == 0 || !IsWordChar(s[i - 1]))
  }

  /** The run starts of `s` at or after `lo`. */
  function RunStartsFrom(s: string, lo: nat): set<nat> {
    set i: nat | lo <= i < |s| && IsRunStart(s, i)
  }

  /** Every index that begins a maximal run of word characters. */
  function RunStarts(s: string): set<nat> {
    RunStartsFrom(s, 0)
  }

  /** Scanning the suffix `s[lo..]` finds exactly the runs of `s` that start
      at or after `lo`, provided position `lo` does not split a run. */
  lemma {:induction false} WordsOfSuffix(s: string, lo: nat)
    requires lo <= |s|
    requires lo == 0 || lo == |s| || !IsWordChar(s[lo - 1]) || !IsWordChar(s[lo])
    ensures CountWords(s[lo..]) == |RunStartsFrom(s, lo)|
    decreases |s| - lo
  {
    if lo == |s| {
      assert s[lo..] == [];
      assert RunStartsFrom(s, lo) == {};
    } else if !IsWordChar(s[lo]) {
      SkipSeparator(s, lo);
      WordsOfSuffix(s, lo + 1);
    } else {
      var n := RunLength(s[lo..]);
      SkipRun(s, lo);
      RunStartsSkipRun(s, lo, n);
      WordsOfSuffix(s, lo + n);
    }
  }

  /** A separator at `lo` is skipped by the scan and starts no run. */
  lemma SkipSeparator(s: string, lo: nat)
    requires lo < |s| && !IsWordChar(s[lo])
    ensures CountWords(s[lo..]) == CountWords(s[lo + 1..])
    ensures |RunStartsFrom(s, lo)| == |RunStartsFrom(s, lo + 1)|
  {
    assert s[lo..][1..] == s[lo + 1..];
    assert RunStartsFrom(s, lo) == RunStartsFrom(s, lo + 1);
  }

  /** A run at `lo` is one match, and it ends at a separator or at the
      end of `s`. */
  lemma SkipRun(s: string, lo: nat)
    requires lo < |s| && IsWordChar(s[lo])
    ensures var n := RunLength(s[lo..]);
            && 0 < n && lo + n <= |s|
            && (lo + n == |s| || !IsWordChar(s[lo + n]))
            && (forall i :: lo <= i < lo + n ==> IsWordChar(s[i]))
            && CountWords(s[lo..]) == 1 + CountWords(s[lo + n..])
  {
    var t := s[lo..];
    var n := RunLength(t);
    assert t[n..] == s[lo + n..];
    assert lo + n < |s| ==> s[lo + n] == t[n];
    forall i | lo <= i < lo + n ensures IsWordChar(s[i]) {
      assert s[i] == t[i - lo];
    }
  }

  /** A run of `n` word characters at `lo`, which does not continue one
      before it, contributes exactly the run start `lo`. */
  lemma RunStartsSkipRun(s: string, lo: nat, n: nat)
    requires 0 < n && lo + n <= |s|
    requires lo == 0 || !IsWordChar(s[lo - 1])
    requires forall i :: lo <= i < lo + n ==> IsWordChar(s[i])
    ensures |RunStartsFrom(s, lo)| == 1 + |RunStartsFrom(s, lo + n)|
  {
    assert IsRunStart(s, lo);
    forall i | lo < i < lo + n ensures !IsRunStart(s, i) {
      assert IsWordChar(s[i - 1]);
    }
    assert RunStartsFrom(s, lo) == {lo} + RunStartsFrom(s, lo + n);
  }

  /** `countWords` returns the number of maximal runs of ASCII word characters. */
  lemma CountWordsIsRunCount(s: string)
    ensures CountWords(s) == |RunStarts(s)|
  {
    assert s[0..] == s;
    WordsOfSuffix(s, 0);
  }

  /** The count is zero exactly when the text holds no word character
      (in particular for the empty text). */
  lemma {:induction false} CountWordsZero(s: string)
    ensures CountWords(s) == 0 <==> forall i :: 0 <= i < |s| ==> !IsWordChar(s[i])
    decreases |s|
  {
    if s != [] && !IsWordChar(s[0]) {
      CountWordsZero(s[1..]);
      assert forall i :: 1 <= i < |s| ==> s[i] == s[1..][i - 1];
    }
  }

  /** A run that ends before the end of `a`, or at its end when `t` starts
      with a separator, is not lengthened by appending `t`. */
  lemma {:induction false} RunLengthAppend(a: string, t: string)
    requires RunLength(a) < |a| || (t != [] && !IsWordChar(t[0]))
    ensures RunLength(a + t) == RunLength(a)
    decreases |a|
  {
    if a != [] && IsWordChar(a[0]) {
      assert (a + t)[1..] == a[1..] + t;
      RunLengthAppend(a[1..], t);
    }
  }

  /** Joining two texts with a separator character concatenates their matches. */
  lemma {:induction false} WordsAppend(a: string, c: char, b: string)
    requires !IsWordChar(c)
    ensures Words(a + [c] + b) == Words(a) + Words(b)
    decreases |a|
  {
    var s := a + [c] + b;
    if a == [] {
      assert s[1..] == b;
    } else if !IsWordChar(a[0]) {
      assert s[1..] == a[1..] + [c] + b;
      WordsAppend(a[1..], c, b);
    } else {
      var n := RunLength(a);
      assert s == a + ([c] + b);
      RunLengthAppend(a, [c] + b);
      assert s[..n] == a[..n];
      assert s[n..] == a[n..] + [c] + b;
      WordsAppend(a[n..], c, b);
    }
  }

  /** The count of two texts joined by a separator is the sum of their counts. */
  lemma CountWordsAppend(a: string, c: char, b: string)
    requires !IsWordChar(c)
    ensures CountWords(a + [c] + b) == CountWords(a) + CountWords(b)
  {
    WordsAppend(a, c, b);
  }

  /** A text made only of word characters is one word. */
  lemma SingleWord(w: string)
    requires IsWord(w)
    ensures Words(w) == [w]
  {
    var n := RunLength(w);
    assert w[..n] == w && w[n..] == [];
  }

  /** HTTP status codes of the verdict (Go's net/http constants). */
  const StatusOK: int := 200
  const StatusNotAcceptable: int := 406

  /** Fewest words the endpoint accepts. */
  const MinWords: nat := 8

  datatype Verdict = Verdict(status: int, message: string)

  /** The branch of `Countwords` that follows a successful bind: OK when the
      text has at least `MinWords` words, Not Acceptable otherwise. */
  function Judge(text: string): (v: Verdict)
    ensures v.status == StatusOK <==> CountWords(text) >= MinWords
    ensures v.status == StatusNotAcceptable <==> CountWords(text) < MinWords
    ensures v.status == StatusOK ==> v.message == "OK"
    ensures v.status == StatusNotAcceptable ==> v.message == "Not Acceptable"
  {
    if CountWords(text) >= MinWords then Verdict(StatusOK, "OK")
    else Verdict(StatusNotAcceptable, "Not Acceptable")
  }

  /** A word followed by a space and a text adds one to its count. */
  lemma CountWordsCons(w: string, rest: string)
    requires IsWord(w)
    ensures CountWords(w + " " + rest) == 1 + CountWords(rest)
  {
    SingleWord(w);
    CountWordsAppend(w, ' ', rest);
  }

  /** Words joined by single spaces: `Spaced(["too", "few", "words"])` is
      the text "too few words". */
  function Spaced(ws: seq<string>): string {
    if |ws| == 0 then ""
    else if |ws| == 1 then ws[0]
    else ws[0] + " " + Spaced(ws[1..])
  }

  /** A text of `k` words joined by single spaces counts `k`. */
  lemma {:induction false} CountSpaced(ws: seq<string>)
    requires forall k :: 0 <= k < |ws| ==> IsWord(ws[k])
    ensures CountWords(Spaced(ws)) == |ws|
  {
    if |ws| == 1 {
      SingleWord(ws[0]);
    } else if |ws| > 1 {
      CountSpaced(ws[1..]);
      CountWordsCons(ws[0], Spaced(ws[1..]));
    }
  }

  /** "the quick brown fox jumps over the lazy dog" has nine words and is accepted. */
  lemma PangramAccepted()
    ensures CountWords(Spaced(["the", "quick", "brown", "fox", "jumps", "over", "the", "lazy", "dog"])) == 9
    ensures Judge(Spaced(["the", "quick", "brown", "fox", "jumps", "over", "the", "lazy", "dog"])) == Verdict(StatusOK, "OK")
  {
    CountSpaced(["the", "quick", "brown", "fox", "jumps", "over", "the", "lazy", "dog"]);
  }

  /** "too few words" has three words, too few. */
  lemma FewWordsRejected()
    ensures Spaced(["too", "few", "words"]) == "too few words"
    ensures CountWords(Spaced(["too", "few", "words"])) == 3
    ensures Judge(Spaced(["too", "few", "words"])) == Verdict(StatusNotAcceptable, "Not Acceptable")
  {
    CountSpaced(["too", "few", "words"]);
  }

  /** The literal text "too few words" is rejected. */
  lemma FewWordsLiteral()
    ensures Judge("too few words") == Verdict(StatusNotAcceptable, "Not Acceptable")
  {
    FewWordsRejected();
  }
}
