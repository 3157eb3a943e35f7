/**
  What the segment sanitizer makes of a text: its maximal runs of letters and digits, in
  lower case, joined by single hyphens.
 */
module SegmentWords {
  import opened Text
  import opened RegistrySegment
  import RegistryTag

  const UPPER := "ABCDEFGHIJKLMNOPQRSTUVWXYZ"
  const LOWER := "abcdefghijklmnopqrstuvwxyz"

  // Lower case is letter by letter, and leaves everything else alone.
  lemma LowerIsAlphabet(c: char)
    ensures forall i :: 0 <= i < 26 ==> LowerChar(UPPER[i]) == LOWER[i]
    ensures c !in UPPER ==> LowerChar(c) == c
  {
    var i := c as int - 'A' as int;
    if 0 <= i < 26 {
      assert UPPER[i] == c;
    }
  }

  // The maximal runs of letters and digits in `word` followed by s.
  function Words(s: string, word: string): seq<string> {
    var done := if word == "" then [] else [word];
    if s == "" then done
    else if 'a' <= s[0] <= 'z' || '0' <= s[0] <= '9' then Words(s[1..], word + [s[0]])
    else done + Words(s[1..], "")
  }

  function Hyphenated(words: seq<string>): string {
    if words == [] then "" else if |words| == 1 then words[0] else words[0] + "-" + Hyphenated(words[1..])
  }

  predicate IsWord(w: string) {
    w != "" && forall c <- w :: IsAlnum(c)
  }

  lemma {:induction false} WordsAreWords(s: string, word: string)
    requires word == "" || IsWord(word)
    ensures forall w <- Words(s, word) :: IsWord(w)
    ensures word != "" ==> Words(s, word) != []
  {
    if s != "" {
      if IsAlnum(s[0]) {
        WordsAreWords(s[1..], word + [s[0]]);
      } else {
        WordsAreWords(s[1..], "");
      }
    }
  }

  // One more word in front.
  lemma HyphenatedCons(w: string, words: seq<string>)
    ensures Hyphenated([w] + words) == if words == [] then w else w + "-" + Hyphenated(words)
  {
    assert ([w] + words)[1..] == words;
  }

  // A letter or digit goes on with the word.
  lemma RunGoesOn(s: string, word: string)
    requires s != "" && IsAlnum(s[0])
    ensures word + ReplaceRuns(s, word == "") == (word + [s[0]]) + ReplaceRuns(s[1..], false)
  {
    var rest := ReplaceRuns(s[1..], false);
    assert ReplaceRuns(s, word == "") == [s[0]] + rest;
    assert word + ([s[0]] + rest) == (word + [s[0]]) + rest;
  }

  // Anything else ends it.
  lemma RunEnds(s: string, word: string, trail: string) returns (trail': string)
    requires s != "" && !IsAlnum(s[0]) && trail in {"", "-"}
    requires ReplaceRuns(s[1..], true) == Hyphenated(Words(s[1..], "")) + trail
    requires Words(s[1..], "") == [] ==> trail == ""
    ensures trail' in {"", "-"} && word + ReplaceRuns(s, word == "") == Hyphenated(Words(s, word)) + trail'
    ensures Words(s, word) == [] ==> trail' == ""
  {
    var rest, words := ReplaceRuns(s[1..], true), Words(s[1..], "");
    trail' := trail;
    if word == "" {
      assert "" + rest == rest && [] + words == words;
    } else {
      HyphenatedCons(word, words);
      if words == [] {
        trail' := "-";
        assert rest == "" && "-" + rest == "-";
      } else {
        assert word + ("-" + (Hyphenated(words) + trail)) == (word + "-" + Hyphenated(words)) + trail;
      }
    }
  }

  // The replaced text is the hyphenated words, with a hyphen left over where it ends outside a word.
  lemma {:induction false} RunsAreWords(s: string, word: string) returns (trail: string)
    requires word == "" || IsWord(word)
    ensures trail in {"", "-"}
    ensures word + ReplaceRuns(s, word == "") == Hyphenated(Words(s, word)) + trail
    ensures Words(s, word) == [] ==> trail == ""
  {
    if s == "" {
      trail := "";
      assert ReplaceRuns(s, word == "") == "";
    } else if IsAlnum(s[0]) {
      trail := RunsAreWords(s[1..], word + [s[0]]);
      RunGoesOn(s, word);
      WordsAreWords(s[1..], word + [s[0]]);
    } else {
      trail := RunsAreWords(s[1..], "");
      assert "" + ReplaceRuns(s[1..], true) == ReplaceRuns(s[1..], true);
      trail := RunEnds(s, word, trail);
    }
  }

  // Hyphenated words begin and end with a letter or digit.
  lemma {:induction false} HyphenatedEnds(words: seq<string>)
    requires forall w <- words :: IsWord(w)
    ensures var h := Hyphenated(words);
            if words == [] then h == "" else h != "" && IsAlnum(h[0]) && IsAlnum(h[|h| - 1])
  {
    if words != [] {
      var w := words[0];
      assert w in words && w[0] in w && w[|w| - 1] in w;
      if |words| > 1 {
        assert words[1] in words;
        HyphenatedEnds(words[1..]);
      }
    }
  }

  lemma StripsTrail(h: string, trail: string)
    requires trail in {"", "-"} && (h != "" ==> h[0] != '-' && h[|h| - 1] != '-')
    ensures StripHyphens(h + trail) == h
  {
    if trail == "" {
      assert h + trail == h;
    } else if h == "" {
      assert (h + trail)[1..] == "";
    } else {
      assert (h + trail)[..|h + trail| - 1] == h;
    }
  }

  lemma StripsLead(s: string)
    ensures StripHyphens("-" + s) == StripHyphens(s)
  {
    assert ("-" + s)[1..] == s;
  }

  lemma ReplacedStart(s: string)
    requires s != ""
    ensures ReplaceRuns(s, false) == (if IsAlnum(s[0]) then "" else "-") + ReplaceRuns(s, true)
  {}

  lemma StripsToWords(s: string)
    ensures StripHyphens(ReplaceRuns(s, false)) == Hyphenated(Words(s, ""))
  {
    var h := Hyphenated(Words(s, ""));
    WordsAreWords(s, "");
    HyphenatedEnds(Words(s, ""));
    if s != "" {
      var trail := RunsAreWords(s, "");
      var replaced := ReplaceRuns(s, true);
      assert "" + replaced == replaced;
      StripsTrail(h, trail);
      ReplacedStart(s);
      StripsLead(replaced);
    }
  }

  // Replacing, collapsing and trimming give the hyphenated words.
  lemma CollapsedIsWords(s: string)
    ensures StripHyphens(CollapseHyphens(ReplaceRuns(s, false), false)) == Hyphenated(Words(s, ""))
  {
    ReplaceRunsTidy(s, false);
    CollapseTidy(ReplaceRuns(s, false), false);
    StripsToWords(s);
  }

  // White space at the ends is in no word.
  lemma {:induction false} WordsOfSnoc(s: string, c: char, word: string)
    requires !IsAlnum(c)
    ensures Words(s + [c], word) == Words(s, word)
  {
    if s == "" {
      assert (s + [c])[1..] == "";
    } else {
      assert (s + [c])[1..] == s[1..] + [c];
      if IsAlnum(s[0]) {
        WordsOfSnoc(s[1..], c, word + [s[0]]);
      } else {
        WordsOfSnoc(s[1..], c, "");
      }
    }
  }

  lemma {:induction false} WordsOfStrip(s: string)
    ensures Words(Lower(Strip(s)), "") == Words(Lower(s), "")
  {
    if s != "" && IsSpace(s[0]) {
      WordsOfStrip(s[1..]);
      assert Lower(s)[1..] == Lower(s[1..]);
    } else if s != "" && IsSpace(s[|s| - 1]) {
      var front, last := s[..|s| - 1], s[|s| - 1];
      WordsOfStrip(front);
      assert Lower(s) == Lower(front) + [LowerChar(last)];
      WordsOfSnoc(Lower(front), LowerChar(last), "");
    }
  }

  // A repository segment is the words of the text, in lower case, joined by hyphens, or "vm" if it has none.
  lemma SegmentIsWords(value: string)
    ensures Segment(value) == if Words(Lower(value), "") == [] then "vm" else Hyphenated(Words(Lower(value), ""))
  {
    WordsOfStrip(value);
    CollapsedIsWords(Lower(Strip(value)));
    WordsAreWords(Lower(value), "");
    HyphenatedEnds(Words(Lower(value), ""));
  }

  // So is the segment of a gold name, "gold" standing for a name without any.
  lemma GoldSegmentIsWords(name: string)
    ensures RegistryTag.GoldSegment(name)
            == if Words(Lower(name), "") == [] then "gold" else Hyphenated(Words(Lower(name), ""))
  {
    WordsOfStrip(name);
    CollapsedIsWords(Lower(Strip(name)));
    WordsAreWords(Lower(name), "");
    HyphenatedEnds(Words(Lower(name), ""));
  }

  // Two names get one segment exactly when they have the same words; "dev 1" and "Dev-1" do.
  lemma {:induction false} SameWordsExactly(a: string, b: string)
    ensures Segment(a) == Segment(b)
            <==> OrDefault(Words(Lower(a), "")) == OrDefault(Words(Lower(b), ""))
  {
    SegmentIsWords(a);
    SegmentIsWords(b);
    WordsAreWords(Lower(a), "");
    WordsAreWords(Lower(b), "");
    WordsFromSegment(OrDefault(Words(Lower(a), "")));
    WordsFromSegment(OrDefault(Words(Lower(b), "")));
  }

  function OrDefault(words: seq<string>): seq<string> {
    if words == [] then ["vm"] else words
  }

  // The words can be read back from their hyphenation.
  lemma {:induction false} WordsFromSegment(words: seq<string>)
    requires forall w <- words :: IsWord(w)
    ensures Words(Hyphenated(words), "") == words
  {
    if words != [] {
      assert words[0] in words;
      if |words| == 1 {
        WordsRead(words[0], "", "");
        assert words[0] + "" == words[0] == "" + words[0];
        assert words == [words[0]];
      } else {
        WordsFromSegment(words[1..]);
        var rest := "-" + Hyphenated(words[1..]);
        WordsRead(words[0], rest, "");
        assert words[0] + rest == Hyphenated(words);
        assert rest[1..] == Hyphenated(words[1..]) && "" + words[0] == words[0];
        assert words == [words[0]] + words[1..];
      }
    }
  }

  lemma {:induction false} WordsRead(w: string, rest: string, word: string)
    requires forall c <- w :: IsAlnum(c)
    ensures Words(w + rest, word) == Words(rest, word + w)
  {
    if w == "" {
      assert w + rest == rest && word + w == word;
    } else {
      assert w[0] in w && (w + rest)[1..] == w[1..] + rest;
      WordsRead(w[1..], rest, word + [w[0]]);
      assert word + [w[0]] + w[1..] == word + w;
    }
  }
}
