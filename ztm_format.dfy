/**
 * The text layer of scripts/transport_data.py: Python's whitespace,
 * `str.strip`, `str.startswith` and the two forms of `str.split`, and the
 * `ZtmFormatIterator` that cuts a timetable file into the blocks between
 * `*TAG` and `#TAG` marker lines.
 */
module ZtmFormat {
  import opened Common

  /** The characters `str.isspace` accepts. */
  predicate IsSpace(c: char)
  {
    var n := c as int;
    (9 <= n <= 13) || (28 <= n <= 32) || n == 0x85 || n == 0xA0 || n == 0x1680 ||
    (0x2000 <= n <= 0x200A) || n == 0x2028 || n == 0x2029 || n == 0x202F || n == 0x205F || n == 0x3000
  }

  function StripStart(s: string): (r: string)
    ensures |r| <= |s|
    ensures r == [] || !IsSpace(r[0])
  {
    if s != [] && IsSpace(s[0]) then StripStart(s[1..]) else s
  }

  function StripEnd(s: string): (r: string)
    ensures |r| <= |s|
    ensures r == [] || !IsSpace(r[|r| - 1])
  {
    if s != [] && IsSpace(s[|s| - 1]) then StripEnd(s[..|s| - 1]) else s
  }

  /** `str.strip()`: the text without whitespace at either end. */
  function Strip(s: string): (r: string)
  {
    StripEnd(StripStart(s))
  }

  /** `StripStart` drops a prefix of whitespace. */
  lemma {:induction false} StripStartDropsSpace(s: string)
    ensures var r := StripStart(s);
            r == s[|s| - |r|..] && forall i :: 0 <= i < |s| - |r| ==> IsSpace(s[i])
  {
    if s != [] && IsSpace(s[0]) {
      StripStartDropsSpace(s[1..]);
    }
  }

  /** `StripEnd` drops a suffix of whitespace. */
  lemma {:induction false} StripEndDropsSpace(s: string)
    ensures var r := StripEnd(s);
            r == s[..|r|] && forall i :: |r| <= i < |s| ==> IsSpace(s[i])
  {
    if s != [] && IsSpace(s[|s| - 1]) {
      StripEndDropsSpace(s[..|s| - 1]);
    }
  }

  lemma {:induction false} StripStartOfTrimmed(s: string)
    requires s == [] || !IsSpace(s[0])
    ensures StripStart(s) == s
  {
  }

  lemma {:induction false} StripEndOfTrimmed(s: string)
    requires s == [] || !IsSpace(s[|s| - 1])
    ensures StripEnd(s) == s
  {
  }

  /**
   * The stripped text is the slice of the original between a prefix and a
   * suffix of whitespace; it starts and ends with a non-space, so
   * stripping it again changes nothing.
   */
  lemma {:induction false} StripIsTrimmedSlice(s: string)
    ensures var r := Strip(s);
            var lo := |s| - |StripStart(s)|;
            lo + |r| <= |s| && r == s[lo..lo + |r|] &&
            (forall i :: 0 <= i < lo ==> IsSpace(s[i])) &&
            (forall i :: lo + |r| <= i < |s| ==> IsSpace(s[i]))
    ensures Strip(s) == [] || (!IsSpace(Strip(s)[0]) && !IsSpace(Strip(s)[|Strip(s)| - 1]))
    ensures Strip(Strip(s)) == Strip(s)
  {
    var a := StripStart(s);
    var r := StripEnd(a);
    StripStartDropsSpace(s);
    StripEndDropsSpace(a);
    var lo := |s| - |a|;
    assert r == s[lo..lo + |r|];
    forall i | lo + |r| <= i < |s|
      ensures IsSpace(s[i])
    {
      assert s[i] == a[i - lo];
    }
    if r != [] {
      assert r[0] == a[0];
    }
    StripStartOfTrimmed(r);
    StripEndOfTrimmed(r);
  }

  /** `str.startswith`. */
  predicate StartsWith(s: string, prefix: string)
  {
    |prefix| <= |s| && s[..|prefix|] == prefix
  }

  /** The first position of `c` in `s`, or -1. */
  function FindChar(s: string, c: char): (i: int)
    ensures -1 <= i < |s|
    ensures i >= 0 ==> s[i] == c && c !in s[..i]
    ensures i == -1 <==> c !in s
  {
    if s == [] then -1
    else if s[0] == c then 0
    else var j := FindChar(s[1..], c); if j < 0 then -1 else j + 1
  }

  /** `s.split(sep)` for a one-character separator. */
  function Split(s: string, sep: char): (parts: seq<string>)
    ensures |parts| >= 1
    ensures forall k :: 0 <= k < |parts| ==> sep !in parts[k]
    decreases |s|
  {
    var i := FindChar(s, sep);
    if i < 0 then [s] else [s[..i]] + Split(s[i + 1..], sep)
  }

  /** `sep.join(parts)`. */
  function Join(parts: seq<string>, sep: char): string
  {
    if parts == [] then "" else if |parts| == 1 then parts[0] else parts[0] + [sep] + Join(parts[1..], sep)
  }

  /** Splitting and joining again gives back the text. */
  lemma {:induction false} JoinSplit(s: string, sep: char)
    ensures Join(Split(s, sep), sep) == s
    decreases |s|
  {
    var i := FindChar(s, sep);
    if i >= 0 {
      var rest := s[i + 1..];
      JoinSplit(rest, sep);
      JoinCons(s[..i], Split(rest, sep), sep);
      Reassemble(s, i);
    }
  }

  lemma Reassemble(s: string, i: int)
    requires 0 <= i < |s|
    ensures s[..i] + [s[i]] + s[i + 1..] == s
  {
  }

  lemma JoinCons(first: string, others: seq<string>, sep: char)
    requires |others| >= 1
    ensures Join([first] + others, sep) == first + [sep] + Join(others, sep)
  {
    var parts := [first] + others;
    assert parts[0] == first && parts[1..] == others;
  }

  /** Joining pieces free of the separator and splitting again gives back the pieces. */
  lemma {:induction false} SplitJoin(parts: seq<string>, sep: char)
    requires |parts| >= 1 && forall k :: 0 <= k < |parts| ==> sep !in parts[k]
    ensures Split(Join(parts, sep), sep) == parts
    decreases |parts|
  {
    if |parts| > 1 {
      var s := Join(parts, sep);
      var rest := Join(parts[1..], sep);
      assert s == parts[0] + [sep] + rest;
      FindAfterFree(parts[0], sep, rest);
      assert s[..|parts[0]|] == parts[0];
      assert s[|parts[0]| + 1..] == rest;
      SplitJoin(parts[1..], sep);
    } else {
      assert FindChar(parts[0], sep) == -1;
    }
  }

  lemma FindAfterFree(a: string, sep: char, b: string)
    requires sep !in a
    ensures FindChar(a + [sep] + b, sep) == |a|
  {
    var s := a + [sep] + b;
    assert s[|a|] == sep;
    assert forall k :: 0 <= k < |a| ==> s[k] == a[k];
    assert sep in s;
    assert sep !in s[..|a|];
  }

  /** The length of the run of non-space characters at the start of `s`. */
  function WordLength(s: string): (n: nat)
    ensures n <= |s|
    ensures s != [] && !IsSpace(s[0]) ==> n >= 1
  {
    if s == [] || IsSpace(s[0]) then 0 else 1 + WordLength(s[1..])
  }

  /** `s.split()`: the maximal runs of non-space characters, in order. */
  function Words(s: string): (words: seq<string>)
    decreases |s|
  {
    var t := StripStart(s);
    if t == [] then []
    else
      var n := WordLength(t);
      [t[..n]] + Words(t[n..])
  }

  /** Whether a text holds no whitespace. */
  predicate NoSpace(w: string)
  {
    forall i :: 0 <= i < |w| ==> !IsSpace(w[i])
  }

  lemma {:induction false} WordLengthFacts(s: string)
    ensures var n := WordLength(s);
            NoSpace(s[..n]) && (n < |s| ==> IsSpace(s[n]))
  {
    if s != [] && !IsSpace(s[0]) {
      WordLengthFacts(s[1..]);
      var n := WordLength(s);
      assert s[..n] == [s[0]] + s[1..][..n - 1];
    }
  }

  /** Every word is non-empty and free of whitespace. */
  lemma {:induction false} WordsAreWords(s: string)
    ensures forall k :: 0 <= k < |Words(s)| ==> Words(s)[k] != [] && NoSpace(Words(s)[k])
    decreases |s|
  {
    var t := StripStart(s);
    if t != [] {
      WordLengthFacts(t);
      WordsAreWords(t[WordLength(t)..]);
    }
  }

  /** Words written with single spaces between them read back as the same words. */
  lemma {:induction false} WordsOfSpaced(words: seq<string>)
    requires forall k :: 0 <= k < |words| ==> words[k] != [] && NoSpace(words[k])
    ensures Words(Join(words, ' ')) == words
    decreases |words|
  {
    if |words| == 1 {
      var w := words[0];
      assert w + [] == w;
      WordsOfWordThen(w, []);
      assert Words([]) == [];
    } else if |words| > 1 {
      var w := words[0];
      var rest := Join(words[1..], ' ');
      JoinCons(w, words[1..], ' ');
      assert [w] + words[1..] == words;
      assert w + [' '] + rest == w + ([' '] + rest);
      WordsOfWordThen(w, [' '] + rest);
      WordsSkipsSpace(rest);
      WordsOfSpaced(words[1..]);
    }
  }

  /** A word followed by the end of the text or by whitespace is the first word. */
  lemma WordsOfWordThen(w: string, rest: string)
    requires w != [] && NoSpace(w) && (rest == [] || IsSpace(rest[0]))
    ensures Words(w + rest) == [w] + Words(rest)
  {
    var s := w + rest;
    assert s[0] == w[0];
    StripStartOfTrimmed(s);
    WordLengthOfWord(w, rest);
    assert s[|w|..] == rest;
  }

  /** A leading space does not change the words. */
  lemma WordsSkipsSpace(rest: string)
    ensures Words([' '] + rest) == Words(rest)
  {
    assert ([' '] + rest)[1..] == rest;
    assert StripStart([' '] + rest) == StripStart(rest);
  }

  lemma {:induction false} WordLengthOfWord(w: string, rest: string)
    requires w != [] && NoSpace(w) && (rest == [] || IsSpace(rest[0]))
    ensures WordLength(w + rest) == |w| && (w + rest)[..|w|] == w
    decreases |w|
  {
    if |w| > 1 {
      assert (w + rest)[1..] == w[1..] + rest;
      WordLengthOfWord(w[1..], rest);
    } else {
      assert (w + rest)[1..] == rest;
    }
  }

  /** Whether the stripped line opens a block of `tag`. */
  predicate IsStart(line: string, tag: string)
  {
    StartsWith(Strip(line), "*" + tag)
  }

  /** Whether the stripped line closes a block of `tag`. */
  predicate IsEnd(line: string, tag: string)
  {
    StartsWith(Strip(line), "#" + tag)
  }

  /** The first line at or after `from` that opens a block. */
  function FirstStart(lines: seq<string>, tag: string, from: nat): (r: Option<nat>)
    requires from <= |lines|
    ensures r.Some? ==> from <= r.value < |lines| && IsStart(lines[r.value], tag)
    ensures forall i {:trigger IsStart(lines[i], tag)} :: from <= i < |lines| && (r.None? || i < r.value) ==> !IsStart(lines[i], tag)
    decreases |lines| - from
  {
    if from == |lines| then None
    else if IsStart(lines[from], tag) then Some(from)
    else FirstStart(lines, tag, from + 1)
  }

  /** The first line at or after `from` that closes a block. */
  function FirstEnd(lines: seq<string>, tag: string, from: nat): (r: Option<nat>)
    requires from <= |lines|
    ensures r.Some? ==> from <= r.value < |lines| && IsEnd(lines[r.value], tag)
    ensures forall i {:trigger IsEnd(lines[i], tag)} :: from <= i < |lines| && (r.None? || i < r.value) ==> !IsEnd(lines[i], tag)
    decreases |lines| - from
  {
    if from == |lines| then None
    else if IsEnd(lines[from], tag) then Some(from)
    else FirstEnd(lines, tag, from + 1)
  }

  /** Every line stripped. */
  function StripAll(lines: seq<string>): (r: seq<string>)
    ensures |r| == |lines|
  {
    if lines == [] then [] else StripAll(lines[..|lines| - 1]) + [Strip(lines[|lines| - 1])]
  }

  lemma {:induction false} StripAllAt(lines: seq<string>, i: int)
    requires 0 <= i < |lines|
    ensures StripAll(lines)[i] == Strip(lines[i])
  {
    if i < |lines| - 1 {
      StripAllAt(lines[..|lines| - 1], i);
    }
  }

  lemma FirstStartAt(lines: seq<string>, tag: string, from: nat, j: nat)
    requires from <= j < |lines| && IsStart(lines[j], tag)
    requires NoStartIn(lines, tag, from, j)
    ensures FirstStart(lines, tag, from) == Some(j)
  {
  }

  lemma FirstEndAt(lines: seq<string>, tag: string, from: nat, j: nat)
    requires from <= j < |lines| && IsEnd(lines[j], tag)
    requires NoEndIn(lines, tag, from, j)
    ensures FirstEnd(lines, tag, from) == Some(j)
  {
  }

  /** The stripped lines `lo` to `hi` (exclusive). */
  function StripRange(lines: seq<string>, lo: nat, hi: nat): seq<string>
    requires lo <= hi <= |lines|
    decreases hi
  {
    if hi == lo then [] else StripRange(lines, lo, hi - 1) + [Strip(lines[hi - 1])]
  }

  lemma {:induction false} StripRangeIsStripAll(lines: seq<string>, lo: nat, hi: nat)
    requires lo <= hi <= |lines|
    ensures StripRange(lines, lo, hi) == StripAll(lines[lo..hi])
    decreases hi
  {
    if hi > lo {
      StripRangeIsStripAll(lines, lo, hi - 1);
      assert lines[lo..hi][..hi - 1 - lo] == lines[lo..hi - 1];
    }
  }

  /**
   * What one call of `run` reads from position `from`: the stripped lines
   * strictly between the first opening line and the next closing line, and
   * the position after the closing line; or nothing, with the stream
   * exhausted, when either marker is missing.
   */
  function RunResult(lines: seq<string>, tag: string, from: nat): (Option<seq<string>>, nat)
    requires from <= |lines|
  {
    match FirstStart(lines, tag, from)
    case None => (None, |lines|)
    case Some(i) =>
      match FirstEnd(lines, tag, i + 1)
      case None => (None, |lines|)
      case Some(e) => (Some(StripAll(lines[i + 1..e])), e + 1)
  }

  /**
   * A block framed by markers is read back exactly: after lines that open
   * no block, an opening line, lines that close none, and a closing line,
   * `run` hands over the stripped inner lines and stops after the closing
   * line, whatever follows.
   */
  lemma RunReadsFramedBlock(before: seq<string>, open: string, body: seq<string>, close: string,
                            after: seq<string>, tag: string)
    requires forall i {:trigger IsStart(before[i], tag)} :: 0 <= i < |before| ==> !IsStart(before[i], tag)
    requires IsStart(open, tag) && IsEnd(close, tag)
    requires forall i {:trigger IsEnd(body[i], tag)} :: 0 <= i < |body| ==> !IsEnd(body[i], tag)
    ensures var lines := before + [open] + body + [close] + after;
            RunResult(lines, tag, 0) == (Some(StripAll(body)), |before| + |body| + 2)
  {
    var lines := before + [open] + body + [close] + after;
    var i := |before|;
    var e := |before| + 1 + |body|;
    FrameIndices(before, open, body, close, after);
    forall k | 0 <= k < i
      ensures !IsStart(lines[k], tag)
    {
      assert !IsStart(before[k], tag);
    }
    forall k | i + 1 <= k < e
      ensures !IsEnd(lines[k], tag)
    {
      assert !IsEnd(body[k - i - 1], tag);
    }
    RunFramed(lines, tag, 0, i, e);
    StripRangeIsStripAll(lines, i + 1, e);
  }

  lemma FrameIndices<T>(before: seq<T>, open: T, body: seq<T>, close: T, after: seq<T>)
    ensures var lines := before + [open] + body + [close] + after;
            var i, e := |before|, |before| + 1 + |body|;
            lines[i] == open && lines[e] == close && lines[i + 1..e] == body &&
            (forall k :: 0 <= k < i ==> lines[k] == before[k]) &&
            (forall k :: i + 1 <= k < e ==> lines[k] == body[k - i - 1])
  {
  }

  /**
   * `run` always moves forward, and when it hands over a block, none of
   * the block's lines closes the block.
   */
  lemma RunProgress(lines: seq<string>, tag: string, from: nat)
    requires from < |lines|
    ensures from < RunResult(lines, tag, from).1 <= |lines|
    ensures RunResult(lines, tag, from).0.Some? ==>
              forall k :: 0 <= k < |RunResult(lines, tag, from).0.value| ==>
                !StartsWith(RunResult(lines, tag, from).0.value[k], "#" + tag)
  {
    match FirstStart(lines, tag, from)
    case None =>
    case Some(i) =>
      match FirstEnd(lines, tag, i + 1)
      case None =>
      case Some(e) =>
        var b := StripAll(lines[i + 1..e]);
        forall k | 0 <= k < |b|
          ensures !StartsWith(b[k], "#" + tag)
        {
          StripAllAt(lines[i + 1..e], k);
          assert !IsEnd(lines[i + 1 + k], tag);
        }
  }

  /**
   * `ZtmFormatIterator`: reads lines from a shared stream, positioned at
   * `pos`, and cuts out the blocks of one tag.
   */
  class ZtmFormatIterator {
    const lines: seq<string>
    const tag: string
    var pos: nat

    ghost predicate Valid()
      reads this
    {
      pos <= |lines|
    }

    constructor (lines: seq<string>, tag: string, pos: nat)
      requires pos <= |lines|
      ensures this.lines == lines && this.tag == tag && this.pos == pos && Valid()
    {
      this.lines := lines;
      this.tag := tag;
      this.pos := pos;
    }

    /**
     * `run`: skips lines up to the first opening line, collects the stripped
     * lines up to the next closing line and hands them over; `None` is the
     * `StopIteration` raised when the stream runs out first.
     */
    method Run() returns (block: Option<seq<string>>)
      requires Valid()
      modifies this
      ensures Valid()
      ensures (block, pos) == RunResult(lines, tag, old(pos))
    {
      block, pos := ReadBlock(lines, tag, pos);
    }
  }

  /** No line in `lines[lo..hi]` opens a block. */
  predicate NoStartIn(lines: seq<string>, tag: string, lo: int, hi: int)
    requires 0 <= lo && hi <= |lines|
  {
    forall i {:trigger IsStart(lines[i], tag)} :: lo <= i < hi ==> !IsStart(lines[i], tag)
  }

  /** No line in `lines[lo..hi]` closes a block. */
  predicate NoEndIn(lines: seq<string>, tag: string, lo: int, hi: int)
    requires 0 <= lo && hi <= |lines|
  {
    forall i {:trigger IsEnd(lines[i], tag)} :: lo <= i < hi ==> !IsEnd(lines[i], tag)
  }

  lemma NoStartExtend(lines: seq<string>, tag: string, lo: nat, hi: nat)
    requires lo <= hi < |lines| && NoStartIn(lines, tag, lo, hi) && !IsStart(lines[hi], tag)
    ensures NoStartIn(lines, tag, lo, hi + 1)
  {
  }

  lemma NoEndExtend(lines: seq<string>, tag: string, lo: nat, hi: nat)
    requires lo <= hi < |lines| && NoEndIn(lines, tag, lo, hi) && !IsEnd(lines[hi], tag)
    ensures NoEndIn(lines, tag, lo, hi + 1)
  {
  }

  /** The block `run` returns when line `i` opens it and line `e` closes it. */
  lemma RunFramed(lines: seq<string>, tag: string, from: nat, i: nat, e: nat)
    requires from <= i < e < |lines| && IsStart(lines[i], tag) && IsEnd(lines[e], tag)
    requires NoStartIn(lines, tag, from, i) && NoEndIn(lines, tag, i + 1, e)
    ensures RunResult(lines, tag, from) == (Some(StripRange(lines, i + 1, e)), e + 1)
  {
    FirstStartAt(lines, tag, from, i);
    FirstEndAt(lines, tag, i + 1, e);
    StripRangeIsStripAll(lines, i + 1, e);
  }

  /** Without an opening line, `run` returns nothing and consumes the stream. */
  lemma RunNoStart(lines: seq<string>, tag: string, from: nat)
    requires from <= |lines| && NoStartIn(lines, tag, from, |lines|)
    ensures RunResult(lines, tag, from) == (None, |lines|)
  {
  }

  /** Without a closing line after the opening one, `run` returns nothing and consumes the stream. */
  lemma RunNoEnd(lines: seq<string>, tag: string, from: nat, i: nat)
    requires from <= i < |lines| && IsStart(lines[i], tag)
    requires NoStartIn(lines, tag, from, i) && NoEndIn(lines, tag, i + 1, |lines|)
    ensures RunResult(lines, tag, from) == (None, |lines|)
  {
    FirstStartAt(lines, tag, from, i);
  }

  /** The loop of `run`, over the stream from position `from`. */
  method ReadBlock(lines: seq<string>, tag: string, from: nat) returns (block: Option<seq<string>>, pos: nat)
    requires from <= |lines|
    ensures (block, pos) == RunResult(lines, tag, from)
  {
    pos := from;
    ghost var startAt: nat := 0;
    var collected: seq<string> := [];
    var appendMode := false;
    while pos < |lines|
      invariant from <= pos <= |lines|
      invariant !appendMode ==> collected == [] && NoStartIn(lines, tag, from, pos)
      invariant appendMode ==> from <= startAt < pos && IsStart(lines[startAt], tag) &&
                               NoStartIn(lines, tag, from, startAt) && NoEndIn(lines, tag, startAt + 1, pos) &&
                               collected == StripRange(lines, startAt + 1, pos)
      decreases |lines| - pos
    {
      var line := Strip(lines[pos]);
      if !appendMode {
        if StartsWith(line, "*" + tag) {
          appendMode := true;
          startAt := pos;
        } else {
          NoStartExtend(lines, tag, from, pos);
        }
      } else {
        if StartsWith(line, "#" + tag) {
          RunFramed(lines, tag, from, startAt, pos);
          block := Some(collected);
          pos := pos + 1;
          return;
        }
        NoEndExtend(lines, tag, startAt + 1, pos);
        assert collected + [line] == StripRange(lines, startAt + 1, pos + 1);
        collected := collected + [line];
      }
      pos := pos + 1;
    }
    if appendMode {
      RunNoEnd(lines, tag, from, startAt);
    } else {
      RunNoStart(lines, tag, from);
    }
    block := None;
  }
}
