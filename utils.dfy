/** The chat helpers of utils.py: the transcript that goes into a prompt,
    the prompt file's layout, and chat identifiers. */
module ChatUtils {
  import opened Wrappers
  import opened PyStr

  /** One turn of a chat: who spoke and what they said. */
  datatype Turn = Turn(speaker: string, text: string)

  /** A transcript line: the capitalised speaker, ": ", then the text
      stripped, with its inner newlines turned into spaces. */
  function TurnLine(turn: Turn): string
  {
    Capitalize(turn.speaker) + ": " + ReplaceChar(Strip(turn.text), '\n', " ")
  }

  /** A line has no newline unless the speaker's name has one. */
  lemma TurnLineOneLine(turn: Turn)
    requires '\n' !in turn.speaker
    ensures '\n' !in TurnLine(turn)
  {
    CapitalizeKeeps(turn.speaker, '\n');
  }

  /** The lines of a transcript, one per turn, in turn order. */
  function Lines(turns: seq<Turn>): (lines: seq<string>)
    ensures |lines| == |turns|
    ensures forall i :: 0 <= i < |turns| ==> lines[i] == TurnLine(turns[i])
  {
    seq(|turns|, i requires 0 <= i < |turns| => TurnLine(turns[i]))
  }

  /** The transcript `build_transcript` returns: the lines joined by
      newlines. */
  function Transcript(turns: seq<Turn>): string {
    Join(Lines(turns), "\n")
  }

  lemma LinesSnoc(turns: seq<Turn>, turn: Turn)
    ensures Lines(turns + [turn]) == Lines(turns) + [TurnLine(turn)]
  {
    var a := Lines(turns + [turn]);
    var b := Lines(turns) + [TurnLine(turn)];
    assert |a| == |b|;
    forall k | 0 <= k < |a|
      ensures a[k] == b[k]
    {
      if k < |turns| {
        assert (turns + [turn])[k] == turns[k];
      } else {
        assert (turns + [turn])[k] == turn;
      }
    }
  }

  /** `build_transcript`, which collects the lines in a loop and joins
      them. */
  method BuildTranscript(turns: seq<Turn>) returns (transcript: string)
    ensures transcript == Transcript(turns)
  {
    var cleanLines: seq<string> := [];
    for i := 0 to |turns|
      invariant cleanLines == Lines(turns[..i])
    {
      LinesSnoc(turns[..i], turns[i]);
      assert turns[..i + 1] == turns[..i] + [turns[i]];
      cleanLines := cleanLines + [TurnLine(turns[i])];
    }
    assert turns[..|turns|] == turns;
    transcript := Join(cleanLines, "\n");
  }

  /** No turns, no transcript. */
  lemma EmptyTranscript()
    ensures Transcript([]) == ""
  {
  }

  /** While no speaker name contains a newline, the transcript splits back
      into exactly one line per turn, in order. */
  lemma TranscriptSplitsIntoLines(turns: seq<Turn>)
    requires turns != []
    requires forall i :: 0 <= i < |turns| ==> '\n' !in turns[i].speaker
    ensures Split(Transcript(turns), "\n") == Lines(turns)
    ensures |Split(Transcript(turns), "\n")| == |turns|
  {
    var lines := Lines(turns);
    forall k | 0 <= k < |lines|
      ensures '\n' !in lines[k]
    {
      TurnLineOneLine(turns[k]);
    }
    SplitJoin(lines, '\n');
  }

  /** A line starts with the capitalised speaker and ": ", and its text has
      no newline and no outer whitespace. */
  lemma {:induction false} TurnLineShape(turn: Turn)
    ensures IsPrefix(Capitalize(turn.speaker) + ": ", TurnLine(turn))
    ensures (var text := TurnLine(turn)[|turn.speaker| + 2..];
             '\n' !in text && Trimmed(text))
  {
    var line := TurnLine(turn);
    var s := Strip(turn.text);
    var text := ReplaceChar(s, '\n', " ");
    assert line == (Capitalize(turn.speaker) + ": ") + text;
    assert line[|turn.speaker| + 2..] == text;
    ReplaceSpaceKeepsTrimmed(s, '\n', ' ');
  }

  /** Replacing one whitespace character by another keeps a stripped
      string stripped. */
  lemma {:induction false} ReplaceSpaceKeepsTrimmed(s: string, c: char, d: char)
    requires Trimmed(s) && IsSpace(c) && IsSpace(d)
    ensures Trimmed(ReplaceChar(s, c, [d]))
    ensures |ReplaceChar(s, c, [d])| == |s|
    ensures s != [] ==> ReplaceChar(s, c, [d])[0] == s[0]
    ensures s != [] ==> ReplaceChar(s, c, [d])[|s| - 1] == s[|s| - 1]
  {
    ReplaceSameLength(s, c, d);
  }

  /** A single-character replacement keeps the length, and changes only
      the characters equal to `c`. */
  lemma {:induction false} ReplaceSameLength(s: string, c: char, d: char)
    ensures |ReplaceChar(s, c, [d])| == |s|
    ensures forall i :: 0 <= i < |s| ==> ReplaceChar(s, c, [d])[i] == if s[i] == c then d else s[i]
    decreases |s|
  {
    if s != [] {
      ReplaceSameLength(s[1..], c, d);
      var r := ReplaceChar(s, c, [d]);
      assert r == (if s[0] == c then [d] else [s[0]]) + ReplaceChar(s[1..], c, [d]);
      assert forall i :: 1 <= i < |s| ==> s[i] == s[1..][i - 1];
    }
  }

  // ---------------------------------------------------------------------
  // `get_prompt_text`

  const PromptSeparator := "######"

  /** The characters `lstrip("opening_line:")` removes: a set, not a
      prefix. */
  const OpeningLabel := "opening_line:"

  /** The prompt file's opening line and prompt text.  The file is split
      on the separator into exactly two parts (any other number fails the
      tuple unpacking); the opening line loses leading label characters and
      outer whitespace, is filled in by `format` with the two names, and is
      stripped again; the prompt loses its trailing whitespace.  `format`
      stands for `str.format`. */
  function GetPromptText(content: string, userName: string, agentName: string,
                         format: (string, string, string) -> string): (r: Result<(string, string)>)
    ensures r.Failure? <==> Count(content, PromptSeparator) != 1
    ensures Count(content, PromptSeparator) == 0 ==>
              r == Failure(ValueError("not enough values to unpack (expected 2, got 1)"))
    ensures Count(content, PromptSeparator) > 1 ==>
              r == Failure(ValueError("too many values to unpack (expected 2)"))
    ensures r.Success? ==> (
      var (opening, prompt) := r.value;
      var i := Find(content, PromptSeparator).value;
      var after := content[i + |PromptSeparator|..];
      && Trimmed(opening)
      && IsPrefix(prompt, after)
      && (forall k :: |prompt| <= k < |after| ==> IsSpace(after[k]))
      && (prompt == [] || !IsSpace(prompt[|prompt| - 1]))
      && !Contains(content[..i], PromptSeparator)
      && !Contains(after, PromptSeparator))
  {
    var n := Count(content, PromptSeparator);
    if n == 0 then Failure(ValueError("not enough values to unpack (expected 2, got 1)"))
    else if n > 1 then Failure(ValueError("too many values to unpack (expected 2)"))
    else
      var parts := Split(content, PromptSeparator);
      PromptPart(content);
      assert parts[1] == content[Find(content, PromptSeparator).value + |PromptSeparator|..];
      var openingLine := Strip(LStripChars(parts[0], OpeningLabel));
      var filled := format(openingLine, userName, agentName);
      Success((Strip(filled), RStrip(parts[1])))
  }

  /** The prompt is the part after the one separator, less its trailing
      whitespace. */
  lemma PromptPart(content: string)
    requires Count(content, PromptSeparator) == 1
    ensures Find(content, PromptSeparator).Some?
    ensures (var i := Find(content, PromptSeparator).value;
             var after := content[i + |PromptSeparator|..];
             && Split(content, PromptSeparator) == [content[..i], after]
             && IsPrefix(RStrip(after), after)
             && (forall k :: |RStrip(after)| <= k < |after| ==> IsSpace(after[k]))
             && !Contains(content[..i], PromptSeparator)
             && !Contains(after, PromptSeparator))
  {
    SplitOnce(content, PromptSeparator);
    var i := Find(content, PromptSeparator).value;
    var after := content[i + |PromptSeparator|..];
    RStripDropsSpaces(after);
    RStripIsPrefix(after);
  }

  /** With one separator the two parts are the text before and after it. */
  lemma SplitOnce(s: string, sep: string)
    requires sep != [] && Count(s, sep) == 1
    ensures Find(s, sep).Some?
    ensures (var i := Find(s, sep).value;
             && Split(s, sep) == [s[..i], s[i + |sep|..]]
             && !Contains(s[..i], sep)
             && !Contains(s[i + |sep|..], sep))
  {
    var i := Find(s, sep).value;
    var rest := s[i + |sep|..];
    CountAt(s, sep, i);
    CountNone(rest, sep);
    assert Split(rest, sep) == [rest];
    FirstOccurrence(s, sep, i);
  }

  /** A string is its stripped self between two runs of whitespace. */
  lemma StripShape(s: string) returns (spaces: string, trail: string)
    ensures s == spaces + Strip(s) + trail
    ensures forall j :: 0 <= j < |spaces| ==> IsSpace(spaces[j])
    ensures forall j :: 0 <= j < |trail| ==> IsSpace(trail[j])
  {
    var left := LStrip(s);
    var opening := RStrip(left);
    assert Strip(s) == opening;
    LStripIsSuffix(s);
    RStripIsPrefix(left);
    spaces, trail := Around(s, left, opening);
    forall j | 0 <= j < |spaces|
      ensures IsSpace(spaces[j])
    {
      LStripDropsSpaces(s);
      assert spaces[j] == s[j];
    }
    forall j | 0 <= j < |trail|
      ensures IsSpace(trail[j])
    {
      RStripDropsSpaces(left);
      assert trail[j] == left[|opening| + j];
    }
  }

  /** A string cut into a prefix, a middle and a suffix, given the middle
      with and without the suffix. */
  lemma Around(s: string, left: string, mid: string) returns (front: string, back: string)
    requires |left| <= |s| && left == s[|s| - |left|..]
    requires |mid| <= |left| && mid == left[..|mid|]
    ensures s == front + mid + back
    ensures front == s[..|s| - |left|] && back == left[|mid|..]
  {
    front := s[..|s| - |left|];
    back := left[|mid|..];
    assert left == mid + back;
    assert s == front + left;
  }

  /** `str.format` on a template without placeholders. */
  function NoPlaceholders(template: string, userName: string, agentName: string): string {
    template
  }

  /** A string is a run of characters of `chars` followed by what
      `lstrip(chars)` leaves. */
  lemma LStripCharsShape(s: string, chars: string) returns (labelled: string)
    ensures s == labelled + LStripChars(s, chars)
    ensures forall j :: 0 <= j < |labelled| ==> labelled[j] in chars
  {
    var rest := LStripChars(s, chars);
    LStripCharsDrops(s, chars);
    labelled := s[..|s| - |rest|];
    assert forall j :: 0 <= j < |labelled| ==> labelled[j] == s[j];
  }

  /** Without placeholders the opening line is what is left of the first
      part once a leading run of label characters, then whitespace, and
      trailing whitespace are removed. */
  lemma {:induction false} OpeningLineOf(content: string, userName: string, agentName: string)
      returns (labelled: string, unlabelled: string, spaces: string, trail: string)
    requires Count(content, PromptSeparator) == 1
    ensures (var before := content[..Find(content, PromptSeparator).value];
             var opening := GetPromptText(content, userName, agentName, NoPlaceholders).value.0;
             && before == labelled + unlabelled
             && (unlabelled == [] || unlabelled[0] !in OpeningLabel)
             && unlabelled == spaces + opening + trail
             && (forall j :: 0 <= j < |labelled| ==> labelled[j] in OpeningLabel)
             && (forall j :: 0 <= j < |spaces| ==> IsSpace(spaces[j]))
             && (forall j :: 0 <= j < |trail| ==> IsSpace(trail[j])))
  {
    SplitOnce(content, PromptSeparator);
    var before := content[..Find(content, PromptSeparator).value];
    labelled := LStripCharsShape(before, OpeningLabel);
    unlabelled := LStripChars(before, OpeningLabel);
    spaces, trail := StripShape(unlabelled);
    var opening := Strip(unlabelled);
    StripTrimmed(opening);
    assert GetPromptText(content, userName, agentName, NoPlaceholders).value.0 == Strip(opening);
  }

  /** The characters of the label are removed even where no label was
      written: "one day" loses "one", then its space. */
  lemma OpeningLineLosesLabelLetters()
    ensures GetPromptText("one day######Hi", "U", "A", NoPlaceholders) == Success(("day", "Hi"))
  {
    var content := "one day######Hi";
    assert content == "one day" + PromptSeparator + "Hi";
    PromptTextOfParts("one day", "Hi", "U", "A");
    LabelLettersStripped();
    ShortNoSpaceStrips();
  }

  /** A file with one separator and no other '#' splits around it. */
  lemma PromptTextOfParts(a: string, b: string, userName: string, agentName: string)
    requires '#' !in a && '#' !in b
    ensures GetPromptText(a + PromptSeparator + b, userName, agentName, NoPlaceholders)
         == Success((Strip(Strip(LStripChars(a, OpeningLabel))), RStrip(b)))
  {
    var content := a + PromptSeparator + b;
    OneSeparator(a, b);
    assert content[..|a|] == a && content[|a| + |PromptSeparator|..] == b;
    SplitOnce(content, PromptSeparator);
  }

  lemma OneSeparator(a: string, b: string)
    requires '#' !in a && '#' !in b
    ensures Count(a + PromptSeparator + b, PromptSeparator) == 1
    ensures Find(a + PromptSeparator + b, PromptSeparator) == Some(|a|)
  {
    var s := a + PromptSeparator + b;
    FindAfter(a, PromptSeparator, b);
    assert s[|a| + |PromptSeparator|..] == b;
    NoStartNotFound(b, PromptSeparator);
  }

  lemma LabelLettersStripped()
    ensures Strip(LStripChars("one day", OpeningLabel)) == "day"
  {
    var s := "one day";
    var lab := OpeningLabel;
    assert s[0] == lab[0] && s[1] == lab[3] && s[2] == lab[2];
    assert forall i :: 0 <= i < |lab| ==> lab[i] != ' ';
    LStripCharsThree(s, lab);
    assert s[3..] == " day";
    SpaceDayStrips();
  }

  /** `lstrip(chars)` on a string whose first three characters, and not
      the fourth, are in `chars`. */
  lemma LStripCharsThree(s: string, chars: string)
    requires |s| > 3 && s[0] in chars && s[1] in chars && s[2] in chars && s[3] !in chars
    ensures LStripChars(s, chars) == s[3..]
  {
    var s1 := s[1..];
    var s2 := s1[1..];
    var s3 := s2[1..];
    assert s3 == s[3..] && s3[0] == s[3];
    assert LStripChars(s3, chars) == s3;
    assert s2[0] == s[2] && LStripChars(s2, chars) == s3;
    assert s1[0] == s[1] && LStripChars(s1, chars) == s3;
  }

  lemma SpaceDayStrips()
    ensures Strip(" day") == "day"
  {
    var t := " day";
    assert t[1..] == "day";
    assert LStrip(t) == "day";
    assert Trimmed("day");
    StripTrimmed("day");
  }

  lemma ShortNoSpaceStrips()
    ensures Strip("day") == "day" && RStrip("Hi") == "Hi"
  {
    assert Trimmed("day");
    StripTrimmed("day");
    assert !IsSpace("Hi"[1]);
  }

  // ---------------------------------------------------------------------
  // `make_chat_id`

  /** `make_chat_id`: the chat name, "_", and the first eight characters of
      the uuid string, which is a parameter here. */
  function MakeChatId(chatName: string, uuid: string): (id: string)
    ensures IsPrefix(chatName + "_", id)
    ensures |uuid| >= 8 ==> |id| == |chatName| + 9 && id[|chatName| + 1..] == uuid[..8]
    ensures |uuid| < 8 ==> id[|chatName| + 1..] == uuid
  {
    var id := chatName + "_" + Take(uuid, 8);
    assert id[..|chatName| + 1] == chatName + "_";
    id
  }

  /** With full-length uuids, a chat id determines the chat name and the
      uuid's first eight characters. */
  lemma ChatIdDeterminesName(a: string, u: string, b: string, v: string)
    requires |u| >= 8 && |v| >= 8
    requires MakeChatId(a, u) == MakeChatId(b, v)
    ensures a == b && u[..8] == v[..8]
  {
    var id := MakeChatId(a, u);
    assert id[..|a|] == a;
    assert id[..|b|] == b;
  }
}
