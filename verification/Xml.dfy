/** XML as the event stream that the parsers read; the tokenizer is not part of this model. */
module Xml {
  import opened Outcomes
  import opened Text

  datatype Attr = Attr(key: string, value: string)

  /** Element names are local names; `Other` stands for comments, references and the like. */
  datatype Event =
    | Start(name: string, attrs: seq<Attr>)
    | Empty(name: string, attrs: seq<Attr>)
    | Text(text: string)
    | End(name: string)
    | Other

  /** The part of a qualified name after its first colon. */
  function LocalName(key: string): string {
    match SplitOnce(key, ':')
    case None => key
    case Some((_, local)) => local
  }

  /** The first attribute with this local name, namespace declarations aside, or the empty string. */
  function Attribute(attrs: seq<Attr>, name: string): string {
    if attrs == [] then ""
    else if !("xmlns" <= attrs[0].key) && LocalName(attrs[0].key) == name then attrs[0].value
    else Attribute(attrs[1..], name)
  }
}

/** Whitespace in running text. */
module Whitespace {
  import opened Text

  /** The words of `s`, with `word` read so far. */
  function WordsFrom(s: string, word: string): seq<string> {
    if s == "" then if word == "" then [] else [word]
    else if IsSpace(s[0]) then (if word == "" then [] else [word]) + WordsFrom(s[1..], "")
    else WordsFrom(s[1..], word + [s[0]])
  }

  function Words(s: string): seq<string> {
    WordsFrom(s, "")
  }

  /** The text with runs of whitespace replaced by one space and none at either end. */
  function Collapse(s: string): string {
    Join(Words(s), ' ')
  }

  predicate IsWord(w: string) {
    w != "" && forall k :: 0 <= k < |w| ==> !IsSpace(w[k])
  }

  lemma {:induction false} WordsAreWords(s: string, word: string)
    requires word == "" || IsWord(word)
    ensures forall w :: w in WordsFrom(s, word) ==> IsWord(w)
  {
    if s != "" {
      if IsSpace(s[0]) {
        WordsAreWords(s[1..], "");
      } else {
        WordsAreWords(s[1..], word + [s[0]]);
      }
    }
  }

  lemma {:induction false} ReadWord(word: string, rest: string, before: string)
    requires forall k :: 0 <= k < |word| ==> !IsSpace(word[k])
    ensures WordsFrom(word + rest, before) == WordsFrom(rest, before + word)
  {
    if word == "" {
      assert word + rest == rest && before + word == before;
    } else {
      assert (word + rest)[1..] == word[1..] + rest;
      ReadWord(word[1..], rest, before + [word[0]]);
      assert before + [word[0]] + word[1..] == before + word;
    }
  }

  lemma {:induction false} WordsOfJoin(words: seq<string>)
    requires forall w :: w in words ==> IsWord(w)
    ensures Words(Join(words, ' ')) == words
  {
    if |words| == 0 {
      assert Join(words, ' ') == "";
    } else if |words| == 1 {
      assert words[0] in words;
      ReadWord(words[0], "", "");
      assert words[0] + "" == words[0] && "" + words[0] == words[0];
    } else {
      assert words[0] in words;
      var rest := [' '] + Join(words[1..], ' ');
      assert Join(words, ' ') == words[0] + rest;
      ReadWord(words[0], rest, "");
      assert "" + words[0] == words[0] && rest[1..] == Join(words[1..], ' ');
      assert forall w :: w in words[1..] ==> w in words;
      WordsOfJoin(words[1..]);
    }
  }

  /** A collapsed label is left alone by collapsing it again. */
  lemma CollapseIsIdempotent(s: string)
    ensures Collapse(Collapse(s)) == Collapse(s)
  {
    WordsAreWords(s, "");
    WordsOfJoin(Words(s));
  }

  /** Words with whitespace before the first, between any two, and after the last. */
  function Spread(words: seq<string>, gaps: seq<string>): string
    requires |gaps| == |words| + 1
  {
    if words == [] then gaps[0] else gaps[0] + (words[0] + Spread(words[1..], gaps[1..]))
  }

  /** The whitespace of ASCII: the blank, and the five control characters from the tab to the carriage return. */
  predicate IsBlank(c: char) {
    c as int == 32 || 9 <= c as int <= 13
  }

  predicate IsSpread(words: seq<string>, gaps: seq<string>) {
    && |gaps| == |words| + 1
    && (forall w :: w in words ==> w != "" && forall k :: 0 <= k < |w| ==> !IsBlank(w[k]))
    && (forall k :: 0 <= k < |gaps| ==> forall i :: 0 <= i < |gaps[k]| ==> IsBlank(gaps[k][i]))
    && (forall k :: 0 < k < |words| ==> gaps[k] != "")
  }

  lemma {:induction false} SkipSpace(gap: string, rest: string)
    requires AllSpace(gap)
    ensures WordsFrom(gap + rest, "") == WordsFrom(rest, "")
  {
    if gap == "" {
      assert gap + rest == rest;
    } else {
      assert (gap + rest)[1..] == gap[1..] + rest;
      SkipSpace(gap[1..], rest);
    }
  }

  /** After a word, whitespace or the end finishes it. */
  lemma WordEnds(word: string, rest: string)
    requires word != "" && (rest == "" || IsSpace(rest[0]))
    ensures WordsFrom(rest, word) == [word] + WordsFrom(rest, "")
  {
  }

  lemma SpreadStarts(words: seq<string>, gaps: seq<string>)
    requires |gaps| == |words| + 1 && AllSpace(gaps[0]) && (words != [] ==> gaps[0] != "")
    ensures Spread(words, gaps) == "" || IsSpace(Spread(words, gaps)[0])
  {
    if gaps[0] != "" {
      assert IsSpace(gaps[0][0]);
    }
  }

  lemma SpreadParts(words: seq<string>, gaps: seq<string>)
    requires IsSpread(words, gaps)
    ensures AllSpace(gaps[0])
    ensures words != [] ==> IsWord(words[0]) && IsSpread(words[1..], gaps[1..]) && (|words| > 1 ==> gaps[1] != "")
  {
    assert gaps[0] == gaps[0] && forall i :: 0 <= i < |gaps[0]| ==> IsBlank(gaps[0][i]);
    if words != [] {
      assert words[0] in words;
      assert forall w :: w in words[1..] ==> w in words;
    }
  }

  /** The first word is read, and then what follows it. */
  lemma FirstWordIsRead(gap: string, word: string, rest: string)
    requires AllSpace(gap) && IsWord(word) && (rest == "" || IsSpace(rest[0]))
    ensures Words(gap + (word + rest)) == [word] + Words(rest)
  {
    SkipSpace(gap, word + rest);
    ReadWord(word, rest, "");
    assert "" + word == word;
    WordEnds(word, rest);
  }

  /** However words are spread out, they are the words that are read. */
  lemma {:induction false} SpreadWordsAreRead(words: seq<string>, gaps: seq<string>)
    requires IsSpread(words, gaps)
    ensures Words(Spread(words, gaps)) == words
    decreases |words|
  {
    SpreadParts(words, gaps);
    if words == [] {
      SkipSpace(gaps[0], "");
      assert gaps[0] + "" == gaps[0];
    } else {
      SpreadParts(words[1..], gaps[1..]);
      SpreadStarts(words[1..], gaps[1..]);
      FirstWordIsRead(gaps[0], words[0], Spread(words[1..], gaps[1..]));
      SpreadWordsAreRead(words[1..], gaps[1..]);
    }
  }

  /** A label is its words with one space between them, whatever whitespace it was written with. */
  lemma LabelIsItsWords(words: seq<string>, gaps: seq<string>)
    requires IsSpread(words, gaps)
    ensures Collapse(Spread(words, gaps)) == Join(words, ' ')
  {
    SpreadWordsAreRead(words, gaps);
  }
}
