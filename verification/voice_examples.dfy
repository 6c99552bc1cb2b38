/** Worked sentences for the standalone voice-controlled fan. */
module VoiceExamples {
  import opened Patterns
  import opened Voice

  /** " <mid><w>" is derived by `\s+.*<w>`. */
  lemma SpaceLineWord(mid: string, w: string)
    requires NoNewline(mid)
    ensures Derives([Spaces, Line, Lit(w)], " " + mid + w)
  {
    DerivesEmpty();
    DerivesLit(w, [], []);
    assert [Lit(w)] + [] == [Lit(w)] && w + [] == w;
    DerivesLine(mid, w, [Lit(w)]);
    assert [Line] + [Lit(w)] == [Line, Lit(w)];
    DerivesSpaces(" ", mid + w, [Line, Lit(w)]);
    assert [Spaces] + [Line, Lit(w)] == [Spaces, Line, Lit(w)];
    assert " " + (mid + w) == " " + mid + w;
  }

  /** "<verb> <word>" and a tail derived by `\s+.*<w>` is derived by `<verb>\s+<word>\s+.*<w>`. */
  lemma VerbWordDerives(verb: string, word: string, w: string, tail: string)
    requires Derives([Spaces, Line, Lit(w)], tail)
    ensures Derives([Lit(verb), Spaces, Lit(word), Spaces, Line, Lit(w)], verb + " " + word + tail)
  {
    var p := [Spaces, Line, Lit(w)];
    DerivesLit(word, tail, p);
    DerivesSpaces(" ", word + tail, [Lit(word)] + p);
    DerivesLit(verb, " " + (word + tail), [Spaces] + ([Lit(word)] + p));
    assert [Lit(verb)] + ([Spaces] + ([Lit(word)] + p)) == [Lit(verb), Spaces, Lit(word), Spaces, Line, Lit(w)];
    assert verb + (" " + (word + tail)) == verb + " " + word + tail;
  }

  /** "<verb> <word> <mid><w>" is found by `<verb>\s+<word>\s+.*<w>`. */
  lemma VerbWordFound(s: string, verb: string, word: string, mid: string, w: string)
    requires s == verb + " " + word + " " + mid + w && NoNewline(mid)
    ensures Found([Lit(verb), Spaces, Lit(word), Spaces, Line, Lit(w)], s)
  {
    SpaceLineWord(mid, w);
    VerbWordDerives(verb, word, w, " " + mid + w);
    assert verb + " " + word + (" " + mid + w) == s;
    DerivedIsFound([Lit(verb), Spaces, Lit(word), Spaces, Line, Lit(w)], s);
  }

  lemma DerivedIsFound(p: Pattern, s: string)
    requires Derives(p, s)
    ensures Found(p, s)
  {
    assert s[0..|s|] == s;
  }

  /** All "on" patterns but `start\s+.*fan` need the word "on". */
  lemma OnPatternsNeedOn(text: string)
    requires !Occurs("on", text) && !Occurs("start", text)
    ensures !AsksFanOn(text)
  {
    forall m | 0 <= m < |FanOn| ensures !Found(FanOn[m], text) {
      if m == 2 {
        assert FanOn[m][0] == Lit("start");
        MissingWordNotFound(FanOn[m], text, "start");
      } else {
        assert Lit("on") in FanOn[m] by {
          assert FanOn[0][2] == FanOn[1][2] == FanOn[3][2] == FanOn[4][5] == Lit("on");
        }
        MissingWordNotFound(FanOn[m], text, "on");
      }
    }
  }

  lemma TurnOnTheFan(s: string)
    requires s == "turn on the fan"
    ensures AsksFanOn(s)
  {
    VerbWordFound(s, "turn", "on", "the ", "fan");
    assert FanOn[0] == [Lit("turn"), Spaces, Lit("on"), Spaces, Line, Lit("fan")];
  }

  /** `switch\s+on\s+.*fan` with `.*` matching nothing. */
  lemma SwitchOnFan(s: string)
    requires s == "switch on fan"
    ensures AsksFanOn(s)
  {
    VerbWordFound(s, "switch", "on", "", "fan");
    assert FanOn[1] == [Lit("switch"), Spaces, Lit("on"), Spaces, Line, Lit("fan")];
  }

  lemma TurnOffTheFan(s: string)
    requires s == "turn off the fan"
    ensures !AsksFanOn(s) && AsksFanOff(s)
  {
    NoOnRequest(s, "turn ", "off the fa", "n");
    TurnOffTheFanOff(s);
  }

  lemma TurnOffTheFanOff(s: string)
    requires s == "turn off the fan"
    ensures AsksFanOff(s)
  {
    VerbWordFound(s, "turn", "off", "the ", "fan");
    assert FanOff[0] == [Lit("turn"), Spaces, Lit("off"), Spaces, Line, Lit("fan")];
  }

  /**
   A sentence without an 's' and without "on" asks for nothing: "on" is ruled
   out by cutting the sentence where no 'o' is followed by an 'n'.
   */
  lemma NoOnRequest(s: string, a: string, b: string, c: string)
    requires s == a + b + c && 's' !in s
    requires 'o' !in a && 'n' !in b && 'o' !in c && (b == [] || b[|b| - 1] != 'o')
    ensures !AsksFanOn(s)
  {
    PairAbsentThree("on", a, b, c);
    AbsentLetterBlocks("start", s, 's');
    OnPatternsNeedOn(s);
  }

  /** `fan\s+off`: the short form. */
  lemma FanOffShort(s: string)
    requires s == "fan off"
    ensures !AsksFanOn(s) && AsksFanOff(s)
  {
    NoOnRequest(s, "fan ", "off", "");
    FanOffShortOff(s);
  }

  lemma FanOffShortOff(s: string)
    requires s == "fan off"
    ensures AsksFanOff(s)
  {
    TwoWordsFound(s, "fan", "off");
    assert FanOff[3] == [Lit("fan"), Spaces, Lit("off")];
  }
}
