/** The pure parts of the voice-bot command line (cli.py): the prompt
    configuration and the end-of-call test. */
module Cli {
  import opened Wrappers
  import opened PyStr
  import opened PyDict
  import opened OaiClient

  /** `PROMPT_CONFIG`.  Newlines (token 198) are suppressed. */
  const PromptConfig: Items<Value> := [
    ("model", Str("text-davinci-002")),
    ("temperature", Num("0.7")),
    ("max_tokens", Int(50)),
    ("logit_bias", Dict(map[198 := -100]))]

  /** The stop sequences for a chat between the two speakers. */
  function StopTokens(userName: string, agentName: string): seq<string> {
    ["\n", userName + ":", agentName + ":"]
  }

  /** `get_prompt_config`: a copy of `PROMPT_CONFIG` with "stop" set.
      `PROMPT_CONFIG` is a value here, so the copy cannot change it. */
  function GetPromptConfig(userName: string, agentName: string): (params: Items<Value>)
    ensures DistinctKeys(params)
    ensures Lookup(params, "stop") == Some(StrList(["\n", userName + ":", agentName + ":"]))
    ensures forall k :: k != "stop" ==> Lookup(params, k) == Lookup(PromptConfig, k)
    ensures |params| == |PromptConfig| + 1 && params[..|PromptConfig|] == PromptConfig
  {
    assert DistinctKeys(PromptConfig);
    assert Lookup(PromptConfig, "stop") == None by {
      assert forall i :: 0 <= i < |PromptConfig| ==> PromptConfig[i].0 != "stop";
    }
    SetItem(PromptConfig, "stop", StrList(StopTokens(userName, agentName)))
  }

  /** The configuration's values are the ones `PROMPT_CONFIG` sets. */
  lemma PromptConfigValues(userName: string, agentName: string)
    ensures Lookup(GetPromptConfig(userName, agentName), "model") == Some(Str("text-davinci-002"))
    ensures Lookup(GetPromptConfig(userName, agentName), "max_tokens") == Some(Int(50))
    ensures Lookup(GetPromptConfig(userName, agentName), "logit_bias") == Some(Dict(map[198 := -100]))
    ensures Lookup(GetPromptConfig(userName, agentName), "suffix") == None
  {
    PromptConfigLookups();
    ConfigKeeps(userName, agentName, "model");
    ConfigKeeps(userName, agentName, "max_tokens");
    ConfigKeeps(userName, agentName, "logit_bias");
    ConfigKeeps(userName, agentName, "suffix");
  }

  /** Keys other than "stop" keep their `PROMPT_CONFIG` values. */
  lemma ConfigKeeps(userName: string, agentName: string, k: string)
    requires k != "stop"
    ensures Lookup(GetPromptConfig(userName, agentName), k) == Lookup(PromptConfig, k)
  {
  }

  /** What `PROMPT_CONFIG` itself holds.  No key is six letters long, so
      none is "suffix". */
  lemma PromptConfigLookups()
    ensures Lookup(PromptConfig, "model") == Some(Str("text-davinci-002"))
    ensures Lookup(PromptConfig, "max_tokens") == Some(Int(50))
    ensures Lookup(PromptConfig, "logit_bias") == Some(Dict(map[198 := -100]))
    ensures Lookup(PromptConfig, "suffix") == None
  {
    assert DistinctKeys(PromptConfig);
    LookupAt(PromptConfig, 0);
    LookupAt(PromptConfig, 2);
    LookupAt(PromptConfig, 3);
    assert |PromptConfig[0].0| == 5 && |PromptConfig[1].0| == 11;
    assert |PromptConfig[2].0| == 10 && |PromptConfig[3].0| == 10;
    assert |"suffix"| == 6;
  }

  // ---------------------------------------------------------------------
  // `user_desires_call_end`

  /** The cleaning step: strip, lower-case, delete "." and "?", then turn
      "!" into ".". */
  function CleanText(text: string): (r: string)
    ensures '!' !in r && '?' !in r
    ensures NoUpper(r)
  {
    var lowered := Lower(Strip(text));
    var t := ReplaceChar(ReplaceChar(lowered, '.', ""), '?', "");
    assert '!' !in ".";
    var r := ReplaceChar(t, '!', ".");
    CleanedChars(lowered, r);
    r
  }

  /** The characters left by the deletions and the replacement: no '?',
      and none upper case. */
  lemma CleanedChars(lowered: string, r: string)
    requires NoUpper(lowered)
    requires r == ReplaceChar(ReplaceChar(ReplaceChar(lowered, '.', ""), '?', ""), '!', ".")
    ensures '?' !in r && NoUpper(r)
  {
    var t1 := ReplaceChar(lowered, '.', "");
    var t := ReplaceChar(t1, '?', "");
    ReplaceCharFrom(lowered, '.', "");
    ReplaceCharFrom(t1, '?', "");
    ReplaceCharFrom(t, '!', ".");
    assert forall x :: x in lowered ==> !IsUpper(x);
    assert !IsUpper('.') && '?' !in ".";
    assert forall x :: x in r ==> !IsUpper(x) && x != '?';
  }

  const DirectCommands := ["exit", "end call"]

  const EndCallPhrases := ["goodbye", "good bye", "bye now"]

  /** The answer `user_desires_call_end` gives: the cleaned text is a
      direct command, or contains one of the end-of-call phrases. */
  predicate DesiresCallEnd(text: string) {
    var clean := CleanText(text);
    clean in DirectCommands || exists k :: 0 <= k < |EndCallPhrases| && Contains(clean, EndCallPhrases[k])
  }

  /** `user_desires_call_end`, with its loop over the phrases. */
  method UserDesiresCallEnd(text: string) returns (ends: bool)
    ensures ends == DesiresCallEnd(text)
  {
    var cleanText := CleanText(text);
    if cleanText in DirectCommands {
      CleanedToCommand(text);
      return true;
    }
    for k := 0 to |EndCallPhrases|
      invariant forall j :: 0 <= j < k ==> !Contains(cleanText, EndCallPhrases[j])
    {
      if Contains(cleanText, EndCallPhrases[k]) {
        ContainedPhraseEnds(text, k);
        return true;
      }
    }
    NoPhraseNoEnd(text);
    return false;
  }

  /** A phrase without '.', '?' or '!' survives the deletions and
      replacements of the cleaning step. */
  lemma {:induction false} CleanKeepsPhrase(a: string, phrase: string, b: string)
    requires '.' !in phrase && '?' !in phrase && '!' !in phrase
    ensures ReplaceChar(ReplaceChar(ReplaceChar(a + phrase + b, '.', ""), '?', ""), '!', ".")
         == ReplaceChar(ReplaceChar(ReplaceChar(a, '.', ""), '?', ""), '!', ".") + phrase
          + ReplaceChar(ReplaceChar(ReplaceChar(b, '.', ""), '?', ""), '!', ".")
  {
    ReplaceCharAppend(a + phrase, b, '.', "");
    ReplaceCharAppend(a, phrase, '.', "");
    var a1, b1 := ReplaceChar(a, '.', ""), ReplaceChar(b, '.', "");
    ReplaceCharAppend(a1 + phrase, b1, '?', "");
    ReplaceCharAppend(a1, phrase, '?', "");
    var a2, b2 := ReplaceChar(a1, '?', ""), ReplaceChar(b1, '?', "");
    ReplaceCharAppend(a2 + phrase, b2, '!', ".");
    ReplaceCharAppend(a2, phrase, '!', ".");
  }

  /** Stripping keeps a phrase that starts and ends with a non-space. */
  lemma {:induction false} StripKeepsPhrase(a: string, phrase: string, b: string)
    requires phrase != [] && !IsSpace(phrase[0]) && !IsSpace(phrase[|phrase| - 1])
    ensures Strip(a + phrase + b) == LStrip(a) + phrase + RStrip(b)
  {
    LStripInFront(a, phrase, b);
    RStripBehind(LStrip(a), phrase, b);
  }

  /** A phrase that starts and ends with a non-space and has no '.', '?'
      or '!' is found in the cleaned text wherever the lower-cased text has
      it. */
  lemma {:induction false} PhraseSurvivesCleaning(text: string, phrase: string)
    requires phrase != [] && !IsSpace(phrase[0]) && !IsSpace(phrase[|phrase| - 1])
    requires '.' !in phrase && '?' !in phrase && '!' !in phrase
    requires Contains(Lower(text), phrase)
    ensures Contains(CleanText(text), phrase)
  {
    var a, b := ContainsSplit(Lower(text), phrase);
    LowerStripCommute(text);
    StripKeepsPhrase(a, phrase, b);
    CleanKeepsPhrase(LStrip(a), phrase, RStrip(b));
    var a3 := ReplaceChar(ReplaceChar(ReplaceChar(LStrip(a), '.', ""), '?', ""), '!', ".");
    var b3 := ReplaceChar(ReplaceChar(ReplaceChar(RStrip(b), '.', ""), '?', ""), '!', ".");
    assert CleanText(text) == a3 + phrase + b3;
    ContainsIntro(a3, phrase, b3);
  }

  /** Any text that contains an end-of-call phrase, in any mix of case,
      ends the call. */
  lemma {:induction false} EndPhraseEndsCall(text: string, k: nat)
    requires k < |EndCallPhrases|
    requires Contains(Lower(text), EndCallPhrases[k])
    ensures DesiresCallEnd(text)
  {
    var phrase := EndCallPhrases[k];
    assert phrase == "goodbye" || phrase == "good bye" || phrase == "bye now";
    assert phrase[0] == 'g' || phrase[0] == 'b';
    assert phrase[|phrase| - 1] == 'e' || phrase[|phrase| - 1] == 'w';
    assert forall i :: 0 <= i < |phrase| ==> phrase[i] != '.' && phrase[i] != '?' && phrase[i] != '!';
    PhraseSurvivesCleaning(text, phrase);
  }

  /** A text that is, after cleaning, neither a direct command nor contains
      a phrase does not end the call: the loop finds nothing. */
  lemma NoPhraseNoEnd(text: string)
    requires CleanText(text) !in DirectCommands
    requires forall k :: 0 <= k < |EndCallPhrases| ==> !Contains(CleanText(text), EndCallPhrases[k])
    ensures !DesiresCallEnd(text)
  {
  }

  lemma ReplaceExclamation()
    ensures ReplaceChar("exit!", '!', ".") == "exit."
  {
    assert "exit!" == "exit" + ['!'];
    ReplaceCharLast("exit", '!', ".");
  }

  /** "exit!" cleans to "exit.", which is no command: the '!' becomes a
      '.' only after the dots have been deleted. */
  lemma ExclaimedExitDoesNotEnd()
    ensures CleanText("exit!") == "exit."
    ensures !DesiresCallEnd("exit!")
  {
    ExclaimedExitCleans();
    CleanedToExitDot("exit!");
  }

  lemma CleanedToExitDot(text: string)
    requires CleanText(text) == "exit."
    ensures !DesiresCallEnd(text)
  {
    var c := CleanText(text);
    assert c != "exit" && c != "end call";
    forall k | 0 <= k < |EndCallPhrases|
      ensures !Contains(c, EndCallPhrases[k])
    {
      LongerNotContained(c, EndCallPhrases[k]);
    }
  }

  lemma ExclaimedExitCleans()
    ensures CleanText("exit!") == "exit."
  {
    var s := "exit!";
    assert Trimmed(s) && NoUpper(s) && '.' !in s && '?' !in s;
    CleanOfClean(s);
    ReplaceExclamation();
  }

  /** A trimmed text without upper case, '.' or '?' only has its '!'
      turned into '.'. */
  lemma CleanOfClean(s: string)
    requires Trimmed(s) && NoUpper(s) && '.' !in s && '?' !in s
    ensures CleanText(s) == ReplaceChar(s, '!', ".")
  {
    StripTrimmed(s);
    LowerOfLower(s);
  }

  /** "Goodbye!" cleans to "goodbye.", which contains "goodbye". */
  lemma ExclaimedGoodbyeEnds()
    ensures DesiresCallEnd("Goodbye!")
  {
    var l := Lower("Goodbye!");
    assert l[..7] == "goodbye";
    assert IsPrefix("goodbye", l);
    EndPhraseEndsCall("Goodbye!", 0);
  }

  lemma DeleteDot()
    ensures ReplaceChar("exit.", '.', "") == "exit"
  {
    assert "exit." == "exit" + ['.'];
    ReplaceCharLast("exit", '.', "");
    assert "exit" + "" == "exit";
  }

  /** " Exit. " cleans to "exit", a direct command. */
  lemma PaddedExitEnds()
    ensures CleanText(" Exit. ") == "exit"
    ensures DesiresCallEnd(" Exit. ")
  {
    PaddedExitCleans();
    CleanedToCommand(" Exit. ");
  }

  lemma ContainedPhraseEnds(text: string, k: nat)
    requires k < |EndCallPhrases| && Contains(CleanText(text), EndCallPhrases[k])
    ensures DesiresCallEnd(text)
  {
  }

  lemma CleanedToCommand(text: string)
    requires CleanText(text) in DirectCommands
    ensures DesiresCallEnd(text)
  {
  }

  lemma PaddedExitCleans()
    ensures CleanText(" Exit. ") == "exit"
  {
    StripPaddedExit();
    CleanOfExitDot(" Exit. ");
  }

  lemma CleanOfExitDot(text: string)
    requires Strip(text) == "Exit."
    ensures CleanText(text) == "exit"
  {
    LowerExitDot();
    var l := Lower(Strip(text));
    assert l == "exit.";
    DeleteDot();
    var d := ReplaceChar(l, '.', "");
    assert d == "exit";
    NothingToReplace();
  }

  lemma NothingToReplace()
    ensures ReplaceChar(ReplaceChar("exit", '?', ""), '!', ".") == "exit"
  {
    var s := "exit";
    assert '?' !in s && '!' !in s;
  }

  lemma StripPaddedExit()
    ensures Strip(" Exit. ") == "Exit."
  {
    var t := " Exit. ";
    assert t[1..] == "Exit. ";
    assert LStrip(t) == "Exit. ";
    assert "Exit. "[..5] == "Exit.";
    assert RStrip("Exit. ") == "Exit.";
  }

  lemma LowerExitDot()
    ensures Lower("Exit.") == "exit."
  {
    var lo := Lower("Exit.");
    assert lo[0] == 'e' && lo[1] == 'x' && lo[2] == 'i' && lo[3] == 't' && lo[4] == '.';
  }
}
