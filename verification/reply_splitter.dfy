/**
 Turning the model's answer into chat bubbles (the tail of
 `generateChatResponse` in `AIContext`): one bubble per non-blank line, and a
 single long line is re-split after sentence punctuation. Whatever is done,
 no visible character is lost or invented.
 */
module ReplySplitter {
  import opened Common

  // ---------------------------------------------------------------------------
  // Visible text
  // ---------------------------------------------------------------------------

  /** The string with every white-space character removed. */
  function Visible(s: string): (v: string)
    ensures |v| <= |s|
  {
    if |s| == 0 then []
    else (if IsSpace(s[0]) then [] else [s[0]]) + Visible(s[1..])
  }

  lemma {:induction false} VisibleAppend(a: string, b: string)
    ensures Visible(a + b) == Visible(a) + Visible(b)
    decreases |a|
  {
    if |a| > 0 {
      assert (a + b)[1..] == a[1..] + b;
      VisibleAppend(a[1..], b);
    } else {
      assert a + b == b;
    }
  }

  /** Blank strings are exactly those with nothing visible. */
  lemma {:induction false} VisibleEmptyIffBlank(s: string)
    ensures Visible(s) == [] <==> IsBlank(s)
    decreases |s|
  {
    if |s| > 0 {
      VisibleEmptyIffBlank(s[1..]);
      assert IsBlank(s) <==> IsSpace(s[0]) && IsBlank(s[1..]) by {
        if IsSpace(s[0]) && IsBlank(s[1..]) {
          forall i | 0 <= i < |s| ensures IsSpace(s[i]) {
            if i > 0 { assert s[i] == s[1..][i - 1]; }
          }
        }
      }
    }
  }

  /** The strings written one after the other. */
  function Concat(ss: seq<string>): string {
    if |ss| == 0 then [] else ss[0] + Concat(ss[1..])
  }

  lemma {:induction false} ConcatAppend(a: seq<string>, b: seq<string>)
    ensures Concat(a + b) == Concat(a) + Concat(b)
    decreases |a|
  {
    if |a| > 0 {
      assert (a + b)[1..] == a[1..] + b;
      ConcatAppend(a[1..], b);
    } else {
      assert a + b == b;
    }
  }

  /** Joining with line breaks shows the same visible text as writing the lines together. */
  lemma {:induction false} JoinVisible(ls: seq<string>)
    requires |ls| >= 1
    ensures Visible(Join(ls, '\n')) == Visible(Concat(ls))
    decreases |ls|
  {
    if |ls| > 1 {
      JoinVisible(ls[1..]);
      VisibleAppend(ls[0] + ['\n'], Join(ls[1..], '\n'));
      VisibleAppend(ls[0], ['\n']);
      VisibleAppend(ls[0], Concat(ls[1..]));
      assert Visible(['\n']) == [];
    } else {
      assert ls[1..] == [];
      assert Concat(ls) == ls[0] + [] == ls[0];
    }
  }

  // ---------------------------------------------------------------------------
  // Dropping blank lines
  // ---------------------------------------------------------------------------

  /** `line.trim() !== ''` */
  predicate NonBlank(line: string) {
    Trim(line) != ""
  }

  /** Removing blank pieces removes nothing visible. */
  lemma {:induction false} DropBlankVisible(ls: seq<string>)
    ensures Visible(Concat(Filter(ls, NonBlank))) == Visible(Concat(ls))
    decreases |ls|
  {
    if |ls| > 0 {
      DropBlankVisible(ls[1..]);
      var rest := Filter(ls[1..], NonBlank);
      VisibleAppend(ls[0], Concat(ls[1..]));
      if NonBlank(ls[0]) {
        assert Filter(ls, NonBlank) == [ls[0]] + rest;
        assert ([ls[0]] + rest)[1..] == rest;
        VisibleAppend(ls[0], Concat(rest));
      } else {
        TrimEmptyIffBlank(ls[0]);
        VisibleEmptyIffBlank(ls[0]);
      }
    }
  }

  /** Every kept piece is non-blank. */
  lemma KeptAreNonBlank(ls: seq<string>)
    ensures forall p :: p in Filter(ls, NonBlank) ==> !IsBlank(p)
  {
    forall p | p in Filter(ls, NonBlank) ensures !IsBlank(p) {
      TrimEmptyIffBlank(p);
    }
  }

  // ---------------------------------------------------------------------------
  // Sentence splitting
  // ---------------------------------------------------------------------------

  /** The sentence ends of `/(?<=[.!?。！？])\s+/`. */
  predicate IsSentenceEnd(c: char) {
    c == '.' || c == '!' || c == '?' || c == '。' || c == '！' || c == '？'
  }

  /** A match of the separator can start at `i`: white space right after a sentence end. */
  predicate BreakAt(s: string, i: int) {
    0 < i < |s| && IsSentenceEnd(s[i - 1]) && IsSpace(s[i])
  }

  /** The first place at or after `i` where a separator starts. */
  function FirstBreak(s: string, i: nat): (k: Option<nat>)
    requires i <= |s|
    ensures k.Some? ==> i <= k.value < |s| && BreakAt(s, k.value)
    ensures forall j :: i <= j < (if k.Some? then k.value else |s|) ==> !BreakAt(s, j)
    decreases |s| - i
  {
    if i == |s| then None
    else if BreakAt(s, i) then Some(i)
    else FirstBreak(s, i + 1)
  }

  /**
   `s.split(/(?<=[.!?。！？])\s+/)`: cut at every run of white space that
   follows a sentence end, dropping the run. The search resumes after the run,
   whose last character is white space, so the rest is split the same way.
   */
  function SentenceSplit(s: string): (r: seq<string>)
    ensures |r| >= 1
    decreases |s|
  {
    if |s| == 0 then [s]
    else
      match FirstBreak(s, 1)
      case None => [s]
      case Some(i) =>
        var j := SpaceRunEnd(s, i);
        [s[..i]] + SentenceSplit(s[j..])
  }

  /** The split of a non-empty string with a separator: the part before it, then the split of what follows the white space. */
  lemma SentenceSplitUnfold(s: string, i: nat)
    requires |s| > 0 && FirstBreak(s, 1) == Some(i)
    ensures SentenceSplit(s) == [s[..i]] + SentenceSplit(s[SpaceRunEnd(s, i)..])
  {
  }

  /** No piece contains a separator. */
  lemma {:induction false} SentencePiecesUnbroken(s: string)
    ensures forall p, k :: p in SentenceSplit(s) ==> !BreakAt(p, k)
    decreases |s|
  {
    if |s| > 0 && FirstBreak(s, 1).Some? {
      var i := FirstBreak(s, 1).value;
      var tail := s[SpaceRunEnd(s, i)..];
      SentenceSplitUnfold(s, i);
      SentencePiecesUnbroken(tail);
      forall k ensures !BreakAt(s[..i], k) {
        if BreakAt(s[..i], k) {
          assert BreakAt(s, k);
        }
      }
    }
  }

  /** Every character of a piece comes from the split string. */
  lemma {:induction false} SentencePiecesFromLine(s: string)
    ensures forall p, c :: p in SentenceSplit(s) && c in p ==> c in s
    decreases |s|
  {
    if |s| > 0 && FirstBreak(s, 1).Some? {
      var i := FirstBreak(s, 1).value;
      var j := SpaceRunEnd(s, i);
      var tail := s[j..];
      SentenceSplitUnfold(s, i);
      SentencePiecesFromLine(tail);
      forall c | c in s[..i] || c in tail ensures c in s {
        if c in s[..i] {
          var m :| 0 <= m < i && s[..i][m] == c;
          assert s[m] == c;
        } else {
          var m :| 0 <= m < |tail| && tail[m] == c;
          assert s[j + m] == c;
        }
      }
    }
  }

  /** Every piece but the last ends a sentence. */
  lemma {:induction false} SentencePiecesEnd(s: string)
    ensures forall n :: 0 <= n < |SentenceSplit(s)| - 1 ==>
              |SentenceSplit(s)[n]| > 0 && IsSentenceEnd(SentenceSplit(s)[n][|SentenceSplit(s)[n]| - 1])
    decreases |s|
  {
    if |s| > 0 && FirstBreak(s, 1).Some? {
      var i := FirstBreak(s, 1).value;
      var tail := s[SpaceRunEnd(s, i)..];
      var r := SentenceSplit(s);
      SentenceSplitUnfold(s, i);
      SentencePiecesEnd(tail);
      forall n | 0 < n < |r| - 1
        ensures |r[n]| > 0 && IsSentenceEnd(r[n][|r[n]| - 1])
      {
        assert r[n] == SentenceSplit(tail)[n - 1];
      }
    }
  }

  /** Split at the first break, the pieces run together are the text before it, then the rest's pieces. */
  lemma SplitConcatStep(s: string, i: nat)
    requires |s| > 0 && FirstBreak(s, 1) == Some(i)
    ensures Concat(SentenceSplit(s)) == s[..i] + Concat(SentenceSplit(s[SpaceRunEnd(s, i)..]))
  {
    SentenceSplitUnfold(s, i);
    var rest := SentenceSplit(s[SpaceRunEnd(s, i)..]);
    assert ([s[..i]] + rest)[1..] == rest;
  }

  /** Leaving out a blank stretch keeps the visible characters. */
  lemma VisibleWithoutRun(s: string, i: nat, j: nat)
    requires i <= j <= |s| && IsBlank(s[i..j])
    ensures Visible(s) == Visible(s[..i]) + Visible(s[j..])
  {
    assert s == s[..i] + s[i..j] + s[j..];
    VisibleDropsBlank(s[..i], s[i..j], s[j..]);
  }

  /** A blank stretch between two texts adds no visible character. */
  lemma VisibleDropsBlank(a: string, b: string, c: string)
    requires IsBlank(b)
    ensures Visible(a + b + c) == Visible(a) + Visible(c)
  {
    VisibleAppend(a + b, c);
    VisibleAppend(a, b);
    VisibleEmptyIffBlank(b);
  }

  /** Only the separators' white space is dropped. */
  lemma {:induction false} SentenceSplitVisible(s: string)
    ensures Visible(Concat(SentenceSplit(s))) == Visible(s)
    decreases |s|
  {
    if |s| > 0 && FirstBreak(s, 1).Some? {
      var i := FirstBreak(s, 1).value;
      var j := SpaceRunEnd(s, i);
      SplitConcatStep(s, i);
      SentenceSplitVisible(s[j..]);
      VisibleAppend(s[..i], Concat(SentenceSplit(s[j..])));
      VisibleWithoutRun(s, i, j);
    } else {
      var r := SentenceSplit(s);
      assert r == [s];
      assert r[1..] == [];
      assert Concat(r) == s + [] == s;
    }
  }

  // ---------------------------------------------------------------------------
  // The reply
  // ---------------------------------------------------------------------------

  /** Lines longer than this are re-split into sentences when they are the only line. */
  const LongLine: nat := 100

  /**
   The bubbles for one answer: the non-blank lines; a single line over 100
   characters is replaced by its non-blank sentences when there are at least
   two; an answer with no non-blank line is shown as it is.
   */
  function SplitReply(text: string): (r: seq<string>)
    ensures |r| >= 1
  {
    var lines := Filter(Split(text, '\n'), NonBlank);
    var responses :=
      if |lines| == 1 && |lines[0]| > LongLine then
        var fallback := Filter(SentenceSplit(lines[0]), NonBlank);
        if |fallback| > 1 then fallback else lines
      else lines;
    if |responses| > 0 then responses else [text]
  }

  /** The re-split was taken: exactly one long non-blank line, cut into at least two non-blank sentences. */
  predicate UsedSentenceSplit(text: string) {
    var lines := Filter(Split(text, '\n'), NonBlank);
    |lines| == 1 && |lines[0]| > LongLine && |Filter(SentenceSplit(lines[0]), NonBlank)| > 1
  }

  /** The non-blank lines: none exactly when the answer is blank, none with a line break, and all the answer's visible text. */
  lemma LinesCorrect(text: string)
    ensures forall p :: p in Filter(Split(text, '\n'), NonBlank) ==> !IsBlank(p) && '\n' !in p
    ensures |Filter(Split(text, '\n'), NonBlank)| == 0 <==> IsBlank(text)
    ensures Visible(Concat(Filter(Split(text, '\n'), NonBlank))) == Visible(text)
  {
    var all := Split(text, '\n');
    var lines := Filter(all, NonBlank);
    JoinVisible(all);
    DropBlankVisible(all);
    KeptAreNonBlank(all);
    VisibleEmptyIffBlank(text);
    if |lines| == 0 {
      assert Concat(lines) == [];
    } else {
      assert lines[0] in lines;
      assert Concat(lines) == lines[0] + Concat(lines[1..]);
      VisibleAppend(lines[0], Concat(lines[1..]));
      VisibleEmptyIffBlank(lines[0]);
    }
  }

  /** The non-blank sentences of a line: non-blank, made of the line's characters, and all its visible text. */
  lemma SentencesCorrect(line: string)
    ensures forall p, c :: p in Filter(SentenceSplit(line), NonBlank) && c in p ==> c in line
    ensures forall p :: p in Filter(SentenceSplit(line), NonBlank) ==> !IsBlank(p)
    ensures Visible(Concat(Filter(SentenceSplit(line), NonBlank))) == Visible(line)
  {
    var pieces := SentenceSplit(line);
    SentencePiecesFromLine(line);
    SentenceSplitVisible(line);
    DropBlankVisible(pieces);
    KeptAreNonBlank(pieces);
  }

  /**
   A blank answer is shown as it is; otherwise every bubble is non-blank and
   has no line break, the bubbles are the answer's non-blank lines unless the
   sentence re-split was taken, and together they show exactly the answer's
   visible characters, in order.
   */
  lemma SplitReplyCorrect(text: string)
    ensures IsBlank(text) ==> SplitReply(text) == [text]
    ensures !IsBlank(text) ==> forall p :: p in SplitReply(text) ==> !IsBlank(p) && '\n' !in p
    ensures !UsedSentenceSplit(text) && !IsBlank(text) ==> SplitReply(text) == Filter(Split(text, '\n'), NonBlank)
    ensures UsedSentenceSplit(text) ==> |SplitReply(text)| >= 2
    ensures Visible(Concat(SplitReply(text))) == Visible(text)
  {
    var lines := Filter(Split(text, '\n'), NonBlank);
    var r := SplitReply(text);
    LinesCorrect(text);
    if |lines| == 0 {
      assert r == [text];
      assert r[1..] == [];
      assert Concat(r) == text + [] == text;
    } else if UsedSentenceSplit(text) {
      SentencesCorrect(lines[0]);
      assert r == Filter(SentenceSplit(lines[0]), NonBlank);
      assert lines[1..] == [];
      assert Concat(lines) == lines[0] + [] == lines[0];
      assert lines[0] in lines;
    } else {
      assert r == lines;
    }
  }

  /** What the chat receives: the bubbles, or a single error bubble when the request failed. */
  function ChatReply(outcome: Result<string, string>): (r: seq<string>)
    ensures |r| >= 1
    ensures outcome.Err? ==> r == ["Error: " + outcome.error]
    ensures outcome.Ok? ==> Visible(Concat(r)) == Visible(outcome.value)
  {
    match outcome
    case Ok(text) =>
      SplitReplyCorrect(text);
      SplitReply(text)
    case Err(message) => ["Error: " + message]
  }
}
