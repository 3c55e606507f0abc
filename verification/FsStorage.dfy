/**
 The byte-level log file: one line per record, a length check before every append, and the
 atomic replace that may report failure after it has already taken effect.
 */
module FsStorage {
  import opened Options
  import opened ByteStrings

  const NL: Byte := 10

  function Newlines(bytes: Bytes): nat {
    if bytes == [] then 0 else Newlines(bytes[..|bytes| - 1]) + if bytes[|bytes| - 1] == NL then 1 else 0
  }

  predicate EndsLine(bytes: Bytes) { bytes != [] && bytes[|bytes| - 1] == NL }

  /** `count_lines`: newlines, plus one for an unterminated tail. Blank lines count. */
  function CountLines(bytes: Bytes): nat {
    if bytes == [] then 0 else if !EndsLine(bytes) then Newlines(bytes) + 1 else Newlines(bytes)
  }

  /** Position of the first newline, or the length if there is none. */
  function FirstNewline(bytes: Bytes): (k: nat)
    ensures k <= |bytes|
    ensures k < |bytes| ==> bytes[k] == NL
    ensures forall i :: 0 <= i < k ==> bytes[i] != NL
  {
    if bytes == [] || bytes[0] == NL then 0 else 1 + FirstNewline(bytes[1..])
  }

  /** The text after the first line. */
  function Rest(bytes: Bytes): (rest: Bytes)
    ensures bytes != [] ==> |rest| < |bytes|
  {
    var k := FirstNewline(bytes);
    if k < |bytes| then bytes[k + 1..] else []
  }

  /** Every line of the file, blank ones included, terminators removed. */
  function Segments(bytes: Bytes): seq<Bytes>
    decreases |bytes|
  {
    if bytes == [] then []
    else [bytes[..FirstNewline(bytes)]] + Segments(Rest(bytes))
  }

  function NonBlank(segments: seq<Bytes>): seq<Bytes> {
    if segments == [] then []
    else
      var n := |segments| - 1;
      NonBlank(segments[..n]) + if segments[n] == [] then [] else [segments[n]]
  }

  /** `split_lines`: what `load` hands to the repository. */
  function SplitLines(bytes: Bytes): seq<Bytes> { NonBlank(Segments(bytes)) }

  method Split(bytes: Bytes) returns (lines: seq<Bytes>)
    ensures lines == SplitLines(bytes)
  {
    lines := [];
    var rest := bytes;
    ghost var seen: seq<Bytes> := [];
    while rest != []
      invariant Segments(bytes) == seen + Segments(rest)
      invariant lines == NonBlank(seen)
      decreases |rest|
    {
      var trimmed := rest[..FirstNewline(rest)];
      SplitStep(bytes, seen, rest);
      seen := seen + [trimmed];
      if trimmed != [] { lines := lines + [trimmed]; }
      rest := Rest(rest);
    }
    assert seen + [] == seen;
  }

  lemma SplitStep(bytes: Bytes, seen: seq<Bytes>, rest: Bytes)
    requires rest != [] && Segments(bytes) == seen + Segments(rest)
    ensures
      var trimmed := rest[..FirstNewline(rest)];
      && Segments(bytes) == (seen + [trimmed]) + Segments(Rest(rest))
      && NonBlank(seen + [trimmed]) == NonBlank(seen) + if trimmed == [] then [] else [trimmed]
  {
    var trimmed := rest[..FirstNewline(rest)];
    assert seen + ([trimmed] + Segments(Rest(rest))) == (seen + [trimmed]) + Segments(Rest(rest));
    assert (seen + [trimmed])[..|seen|] == seen;
  }

  /** `lines` written out, each with its terminator. */
  function Flatten(lines: seq<Bytes>): Bytes {
    if lines == [] then [] else Flatten(lines[..|lines| - 1]) + lines[|lines| - 1] + [NL]
  }

  lemma FlattenNone(lines: seq<Bytes>)
    ensures Flatten(lines[..0]) == []
  {}

  lemma FlattenNext(lines: seq<Bytes>, i: nat)
    requires i < |lines|
    ensures Flatten(lines[..i + 1]) == Flatten(lines[..i]) + lines[i] + [NL]
  {
    assert lines[..i + 1][..i] == lines[..i];
  }

  function Terminated(bytes: Bytes): Bytes { if bytes != [] && !EndsLine(bytes) then bytes + [NL] else bytes }

  /** The new content of the file: the old one, terminated, then the new lines. */
  function Combined(existing: Bytes, lines: seq<Bytes>): Bytes { Terminated(existing) + Flatten(lines) }

  /**
   How one storage call may go wrong. `SyncFails`: the rename took effect, the directory sync did not.
   */
  datatype Fault = NoFault | ReadFails | WriteFails | SyncFails

  datatype StorageResult = Stored | LogMutated(expected: nat, onDisk: nat) | IoError

  datatype StoreEffect = StoreEffect(result: StorageResult, file: Bytes)

  /** The first half of `append`: read the file and compare lengths. `Stored` means: go on. */
  function CheckLength(file: Bytes, expected: nat, fault: Fault): StorageResult {
    if fault.ReadFails? then IoError
    else if CountLines(file) != expected then LogMutated(expected, CountLines(file))
    else Stored
  }

  /** The second half: the new content, built from what was read, replaces whatever the file is by then. */
  function Replace(between: Bytes, content: Bytes, fault: Fault): StoreEffect {
    if fault.WriteFails? then StoreEffect(IoError, between)
    else StoreEffect(if fault.SyncFails? then IoError else Stored, content)
  }

  /**
   `Storage::append` on a file it reads as `file`, and that others have made `between` by the time it
   renames. Where nobody comes in between, `between` is `file`.
   */
  function Store(file: Bytes, between: Bytes, expected: nat, lines: seq<Bytes>, fault: Fault): StoreEffect {
    if CheckLength(file, expected, fault).Stored? then Replace(between, Combined(file, lines), fault)
    else StoreEffect(CheckLength(file, expected, fault), between)
  }

  /** A mismatch is reported exactly when the file was read and the counts differ, the caller's number first. */
  lemma MismatchNames(file: Bytes, between: Bytes, expected: nat, lines: seq<Bytes>, fault: Fault, a: nat, b: nat)
    ensures Store(file, between, expected, lines, fault).result == LogMutated(a, b) <==>
              !fault.ReadFails? && expected != CountLines(file) && a == expected && b == CountLines(file)
  {
    hide CountLines, Combined;
  }

  /** The log file of one unit. */
  class LogFile {
    var bytes: Bytes

    constructor ()
      ensures bytes == []
    {
      bytes := [];
    }

    /** A file that cannot be opened, or is not text, does not load. */
    method Load(readable: bool) returns (lines: Option<seq<Bytes>>)
      ensures lines == if readable then Some(SplitLines(bytes)) else None
    {
      if !readable { return None; }
      var split := Split(bytes);
      lines := Some(split);
    }

    /** `FileSystemStorage::append`: read, compare lengths, build the new content, replace the file. */
    method Append(expected: nat, lines: seq<Bytes>, fault: Fault, between: Bytes) returns (result: StorageResult)
      modifies this
      ensures StoreEffect(result, bytes) == Store(old(bytes), between, expected, lines, fault)
    {
      if fault.ReadFails? {
        bytes := between;
        return IoError;
      }
      var existing := bytes;
      bytes := between;
      var onDisk := CountLines(existing);
      if onDisk != expected { return LogMutated(expected, onDisk); }
      var combined := Combine(existing, lines);
      if fault.WriteFails? { return IoError; }
      bytes := combined;
      return if fault.SyncFails? then IoError else Stored;
    }

    method Combine(existing: Bytes, lines: seq<Bytes>) returns (combined: Bytes)
      ensures combined == Combined(existing, lines)
    {
      combined := existing;
      if combined != [] && !EndsLine(combined) { combined := combined + [NL]; }
      FlattenNone(lines);
      for i := 0 to |lines|
        invariant combined == Terminated(existing) + Flatten(lines[..i])
      {
        FlattenNext(lines, i);
        hide *;
        Assoc(Terminated(existing), Flatten(lines[..i]), lines[i]);
        Assoc(Terminated(existing), Flatten(lines[..i]) + lines[i], [NL]);
        combined := combined + lines[i];
        combined := combined + [NL];
      }
      assert lines[..|lines|] == lines;
    }
  }

  // ----- lines and bytes -----

  /** A line the repository may write: not empty, no newline inside. */
  predicate IsLine(line: Bytes) { line != [] && NL !in line }

  predicate AreLines(lines: seq<Bytes>) { forall l :: l in lines ==> IsLine(l) }

  /** A file without blank lines. */
  predicate NoBlanks(file: Bytes) { [] !in Segments(file) }

  lemma {:induction false} NewlinesConcat(a: Bytes, b: Bytes)
    ensures Newlines(a + b) == Newlines(a) + Newlines(b)
  {
    if b == [] {
      assert a + b == a;
    } else {
      assert (a + b)[..|a + b| - 1] == a + b[..|b| - 1];
      NewlinesConcat(a, b[..|b| - 1]);
    }
  }

  lemma {:induction false} NewlinesNone(a: Bytes)
    requires NL !in a
    ensures Newlines(a) == 0
  {
    if a != [] {
      assert a == a[..|a| - 1] + [a[|a| - 1]];
      NewlinesNone(a[..|a| - 1]);
    }
  }

  lemma {:induction false} FirstNewlineConcat(a: Bytes, b: Bytes)
    ensures FirstNewline(a + b) == if NL in a then FirstNewline(a) else |a| + FirstNewline(b)
  {
    if a == [] {
      assert a + b == b;
    } else {
      assert (a + b)[1..] == a[1..] + b;
      assert a == [a[0]] + a[1..];
      if a[0] != NL { FirstNewlineConcat(a[1..], b); }
    }
  }

  lemma FirstNewlineBound(a: Bytes)
    ensures FirstNewline(a) < |a| <==> NL in a
  {
    if FirstNewline(a) == |a| { assert a[..|a|] == a; }
  }

  lemma NewlineAtEnd(a: Bytes)
    ensures Newlines(a + [NL]) == Newlines(a) + 1
  {
    assert (a + [NL])[..|a|] == a;
  }

  lemma FirstLineAndRest(bytes: Bytes)
    requires FirstNewline(bytes) < |bytes|
    ensures bytes == (bytes[..FirstNewline(bytes)] + [NL]) + Rest(bytes)
  {
    hide Newlines, FirstNewline;
    SplitAround(bytes, FirstNewline(bytes));
  }

  lemma SplitAround(bytes: Bytes, k: nat)
    requires k < |bytes|
    ensures bytes == (bytes[..k] + [bytes[k]]) + bytes[k + 1..]
  {}

  lemma NewlinesRest(bytes: Bytes)
    ensures Newlines(bytes) == Newlines(Rest(bytes)) + if FirstNewline(bytes) < |bytes| then 1 else 0
  {
    var k := FirstNewline(bytes);
    assert Newlines([]) == 0;
    if k == |bytes| { assert Rest(bytes) == [] && bytes[..k] == bytes; }
    hide Newlines, FirstNewline, Rest;
    NewlinesNone(bytes[..k]);
    if k < |bytes| {
      FirstLineAndRest(bytes);
      NewlineAtEnd(bytes[..k]);
      NewlinesConcat(bytes[..k] + [NL], Rest(bytes));
    }
  }

  lemma EndOfRest(bytes: Bytes)
    requires bytes != []
    ensures FirstNewline(bytes) < |bytes| ==> (EndsLine(bytes) <==> Rest(bytes) == [] || EndsLine(Rest(bytes)))
    ensures FirstNewline(bytes) == |bytes| ==> !EndsLine(bytes) && Rest(bytes) == []
  {
    hide Newlines, FirstNewline;
    if FirstNewline(bytes) < |bytes| { TailEndsAlike(bytes, FirstNewline(bytes) + 1); }
  }

  lemma TailEndsAlike(bytes: Bytes, n: nat)
    requires 0 < n <= |bytes|
    ensures bytes[n..] != [] ==> bytes[n..][|bytes[n..]| - 1] == bytes[|bytes| - 1]
    ensures bytes[n..] == [] ==> bytes[n - 1] == bytes[|bytes| - 1]
  {}

  lemma CountRest(bytes: Bytes)
    requires bytes != []
    ensures CountLines(bytes) == 1 + CountLines(Rest(bytes))
  {
    hide EndsLine, Rest, FirstNewline;
    NewlinesRest(bytes);
    EndOfRest(bytes);
  }

  /** `count_lines` counts the segments. */
  lemma {:induction false} CountIsSegments(bytes: Bytes)
    ensures CountLines(bytes) == |Segments(bytes)|
    decreases |bytes|
  {
    if bytes != [] {
      CountRest(bytes);
      CountIsSegments(Rest(bytes));
    }
  }

  lemma FirstLineConcat(a: Bytes, b: Bytes)
    requires NL in a
    ensures FirstNewline(a + b) == FirstNewline(a) < |a|
    ensures (a + b)[..FirstNewline(a)] == a[..FirstNewline(a)]
    ensures Rest(a + b) == Rest(a) + b
  {
    FirstNewlineBound(a);
    FirstNewlineConcat(a, b);
  }

  lemma RestEndsLine(a: Bytes)
    requires EndsLine(a)
    ensures Rest(a) == [] || EndsLine(Rest(a))
  {}

  lemma SegmentsUnfold(bytes: Bytes)
    requires bytes != []
    ensures Segments(bytes) == [bytes[..FirstNewline(bytes)]] + Segments(Rest(bytes))
  {}

  lemma Assoc<T>(a: seq<T>, b: seq<T>, c: seq<T>)
    ensures (a + b) + c == a + (b + c)
  {}

  lemma SegmentsConcatStep(a: Bytes, b: Bytes)
    requires EndsLine(a) && Segments(Rest(a) + b) == Segments(Rest(a)) + Segments(b)
    ensures Segments(a + b) == Segments(a) + Segments(b)
  {
    hide Segments, FirstNewline, Rest;
    assert a[|a| - 1] in a;
    FirstLineConcat(a, b);
    SegmentsUnfold(a);
    SegmentsUnfold(a + b);
    Assoc([a[..FirstNewline(a)]], Segments(Rest(a)), Segments(b));
  }

  /** Text after a complete line does not disturb the lines before it. */
  lemma {:induction false} SegmentsConcat(a: Bytes, b: Bytes)
    requires a == [] || EndsLine(a)
    ensures Segments(a + b) == Segments(a) + Segments(b)
    decreases |a|
  {
    if a == [] {
      assert a + b == b;
    } else {
      hide Segments, FirstNewline, Rest;
      RestEndsLine(a);
      SegmentsConcat(Rest(a), b);
      SegmentsConcatStep(a, b);
    }
  }

  lemma {:induction false} SegmentsTerminated(a: Bytes)
    ensures Segments(Terminated(a)) == Segments(a)
    decreases |a|
  {
    if a != [] && !EndsLine(a) {
      if NL in a {
        FirstLineConcat(a, [NL]);
        SegmentsTerminated(Rest(a));
      } else {
        FirstNewlineBound(a);
        SegmentsLine(a);
        assert a[..|a|] == a;
      }
    }
  }

  /** The segments are the file cut at its newlines: none holds one, and each followed by one they are the file, terminated. */
  lemma {:induction false} SegmentsRebuild(bytes: Bytes)
    ensures Joined(Segments(bytes)) == Terminated(bytes)
    ensures forall s :: s in Segments(bytes) ==> NL !in s
    decreases |bytes|
  {
    if bytes != [] {
      SegmentsUnfold(bytes);
      SegmentsRebuild(Rest(bytes));
      TerminatedRest(bytes);
      hide *;
      var first := bytes[..FirstNewline(bytes)];
      JoinedNext(first, Segments(Rest(bytes)));
      assert forall s :: s in [first] + Segments(Rest(bytes)) ==> s == first || s in Segments(Rest(bytes));
    }
  }

  /** Each followed by a newline, first to last. */
  function Joined(segments: seq<Bytes>): Bytes {
    if segments == [] then [] else segments[0] + [NL] + Joined(segments[1..])
  }

  lemma JoinedNext(first: Bytes, rest: seq<Bytes>)
    ensures Joined([first] + rest) == (first + [NL]) + Joined(rest)
  {
    assert ([first] + rest)[1..] == rest;
  }

  lemma TerminatedRest(bytes: Bytes)
    requires bytes != []
    ensures NL !in bytes[..FirstNewline(bytes)]
    ensures Terminated(bytes) == (bytes[..FirstNewline(bytes)] + [NL]) + Terminated(Rest(bytes))
  {
    EndOfRest(bytes);
    if FirstNewline(bytes) < |bytes| {
      FirstLineAndRest(bytes);
      hide FirstNewline, Rest, EndsLine;
      Assoc(bytes[..FirstNewline(bytes)] + [NL], Rest(bytes), [NL]);
    } else {
      hide Rest, EndsLine;
      assert bytes[..FirstNewline(bytes)] == bytes;
    }
  }

  lemma SegmentsLine(line: Bytes)
    requires NL !in line
    ensures Segments(line + [NL]) == [line]
  {
    FirstNewlineConcat(line, [NL]);
    assert FirstNewline([NL]) == 0;
    assert (line + [NL])[..|line|] == line && Rest(line + [NL]) == [];
  }

  lemma {:induction false} SegmentsFlatten(lines: seq<Bytes>)
    requires forall l :: l in lines ==> NL !in l
    ensures Segments(Flatten(lines)) == lines
    ensures lines == [] || EndsLine(Flatten(lines))
  {
    if lines != [] {
      var n := |lines| - 1;
      assert lines == lines[..n] + [lines[n]];
      SegmentsFlatten(lines[..n]);
      assert Flatten(lines) == Flatten(lines[..n]) + (lines[n] + [NL]);
      SegmentsConcat(Flatten(lines[..n]), lines[n] + [NL]);
      SegmentsLine(lines[n]);
    }
  }

  lemma {:induction false} NonBlankConcat(a: seq<Bytes>, b: seq<Bytes>)
    ensures NonBlank(a + b) == NonBlank(a) + NonBlank(b)
  {
    if b == [] {
      assert a + b == a;
    } else {
      assert (a + b)[..|a + b| - 1] == a + b[..|b| - 1];
      NonBlankConcat(a, b[..|b| - 1]);
    }
  }

  lemma {:induction false} NonBlankLength(segments: seq<Bytes>)
    ensures |NonBlank(segments)| + multiset(segments)[[]] == |segments|
    ensures [] !in segments ==> NonBlank(segments) == segments
  {
    if segments != [] {
      var n := |segments| - 1;
      assert segments == segments[..n] + [segments[n]];
      NonBlankLength(segments[..n]);
    }
  }

  /** Append, then load: the loaded lines are the old ones followed by the new ones, over any old file. */
  lemma AppendThenLoad(file: Bytes, lines: seq<Bytes>)
    requires AreLines(lines)
    ensures Segments(Combined(file, lines)) == Segments(file) + lines
    ensures SplitLines(Combined(file, lines)) == SplitLines(file) + lines
    ensures CountLines(Combined(file, lines)) == CountLines(file) + |lines|
    ensures NoBlanks(Combined(file, lines)) <==> NoBlanks(file)
  {
    SegmentsTerminated(file);
    SegmentsFlatten(lines);
    SegmentsConcat(Terminated(file), Flatten(lines));
    NonBlankConcat(Segments(file), lines);
    NonBlankLength(lines);
    CountIsSegments(file);
    CountIsSegments(Combined(file, lines));
  }

  /** The two line counts differ by the blank lines, so a just-loaded length passes the check exactly without blanks. */
  lemma LoadedLengthPasses(file: Bytes)
    ensures CountLines(file) == |SplitLines(file)| + multiset(Segments(file))[[]]
    ensures CountLines(file) == |SplitLines(file)| <==> NoBlanks(file)
  {
    CountIsSegments(file);
    NonBlankLength(Segments(file));
  }

  /** One blank line makes every load-then-append on the file fail, for ever: `LogMutated` each time. */
  lemma BlankLineWedges(file: Bytes, between: Bytes, lines: seq<Bytes>, fault: Fault)
    requires !NoBlanks(file)
    ensures Store(file, between, |SplitLines(file)|, lines, fault).file == between
    ensures Store(file, between, |SplitLines(file)|, lines, fault).result != Stored
  {
    LoadedLengthPasses(file);
  }

  /** A file with no blank lines is determined, as far as loading goes, by its lines; and equal length means equal content. */
  lemma PrefixOfSameLength(before: Bytes, now: Bytes)
    requires NoBlanks(now) && SplitLines(before) <= SplitLines(now)
    ensures CountLines(now) == |SplitLines(before)| <==> SplitLines(now) == SplitLines(before)
  {
    LoadedLengthPasses(now);
  }
}
