/**
 * The three command triggers of main.py, `^#?只听我的$`, `^#?听大家的$` and
 * `^#?(屏蔽列表|屏蔽群列表)$`, as predicates on the message text. Without the
 * MULTILINE flag, Python's `^` matches only at the start of the text and `$`
 * matches at its end or just before one final newline.
 */
module Triggers {

  const EnableWord: string := "只听我的"
  const DisableWord: string := "听大家的"
  const ListWord: string := "屏蔽列表"
  const GroupListWord: string := "屏蔽群列表"

  /** `w$` matched from the start of `rest`. */
  predicate WordThenEnd(rest: string, w: string) {
    rest == w || rest == w + "\n"
  }

  /** `^#?w$` for a literal word `w`: the optional `#` is tried first, then skipped. */
  function MatchesWord(msg: string, w: string): (m: bool)
    ensures m ==> |w| <= |msg| <= |w| + 2
    ensures m ==> w <= msg || (msg[0] == '#' && w <= msg[1..])
  {
    (|msg| > 0 && msg[0] == '#' && WordThenEnd(msg[1..], w)) || WordThenEnd(msg, w)
  }

  /** `^#?只听我的$`. */
  predicate IsEnableCommand(msg: string): (r: bool)
    ensures r <==> Stripped(msg) == EnableWord
  {
    StrippedMatches(msg, EnableWord);
    MatchesWord(msg, EnableWord)
  }

  /** `^#?听大家的$`. */
  predicate IsDisableCommand(msg: string): (r: bool)
    ensures r <==> Stripped(msg) == DisableWord
  {
    StrippedMatches(msg, DisableWord);
    MatchesWord(msg, DisableWord)
  }

  /** The alternation `(屏蔽列表|屏蔽群列表)` under one `^#?` and `$`. */
  predicate IsListCommand(msg: string): (r: bool)
    ensures r <==> Stripped(msg) == ListWord || Stripped(msg) == GroupListWord
  {
    StrippedMatches(msg, ListWord);
    StrippedMatches(msg, GroupListWord);
    MatchesWord(msg, ListWord) || MatchesWord(msg, GroupListWord)
  }

  /** The texts a trigger accepts are the word, with or without `#`, with or without a final newline. */
  lemma MatchesWordExactly(msg: string, w: string)
    ensures MatchesWord(msg, w) <==>
      msg == w || msg == "#" + w || msg == w + "\n" || msg == "#" + w + "\n"
  {
  }

  /** The text with one leading `#` and one final newline taken off, where present. */
  function Stripped(msg: string): (core: string)
    ensures |msg| - 2 <= |core| <= |msg|
  {
    var rest := if |msg| > 0 && msg[0] == '#' then msg[1..] else msg;
    if |rest| > 0 && rest[|rest| - 1] == '\n' then rest[..|rest| - 1] else rest
  }

  /** A word that neither starts with `#` nor ends in a newline is recovered from any text it matches. */
  lemma MatchedWordIsStripped(msg: string, w: string)
    requires |w| > 0 && w[0] != '#' && w[|w| - 1] != '\n'
    requires MatchesWord(msg, w)
    ensures Stripped(msg) == w
  {
  }

  /** For such a word the converse holds too: a text that strips to the word matches it. */
  lemma StrippedMatches(msg: string, w: string)
    requires |w| > 0 && w[0] != '#' && w[|w| - 1] != '\n'
    ensures MatchesWord(msg, w) <==> Stripped(msg) == w
  {
    if MatchesWord(msg, w) {
      MatchedWordIsStripped(msg, w);
    }
    if Stripped(msg) == w {
      var rest := if |msg| > 0 && msg[0] == '#' then msg[1..] else msg;
      if |rest| > 0 && rest[|rest| - 1] == '\n' {
        assert rest == w + "\n";
      }
    }
  }

  /** At most one command handler fires on any message. */
  lemma CommandsExclusive(msg: string)
    ensures !(IsEnableCommand(msg) && IsDisableCommand(msg))
    ensures !(IsEnableCommand(msg) && IsListCommand(msg))
    ensures !(IsDisableCommand(msg) && IsListCommand(msg))
  {
    var words := [EnableWord, DisableWord, ListWord, GroupListWord];
    forall i | 0 <= i < |words| && MatchesWord(msg, words[i]) ensures Stripped(msg) == words[i] {
      MatchedWordIsStripped(msg, words[i]);
    }
    assert EnableWord[0] != DisableWord[0] && EnableWord[0] != ListWord[0] && DisableWord[0] != ListWord[0];
    assert |ListWord| != |GroupListWord| && |EnableWord| != |GroupListWord| && |DisableWord| != |GroupListWord|;
  }

  /** Each command word, with and without the leading `#`, triggers its command. */
  lemma CommandWordsTrigger()
    ensures IsEnableCommand(EnableWord) && IsEnableCommand("#" + EnableWord)
    ensures IsDisableCommand(DisableWord) && IsDisableCommand("#" + DisableWord)
    ensures IsListCommand(ListWord) && IsListCommand("#" + ListWord)
    ensures IsListCommand(GroupListWord) && IsListCommand("#" + GroupListWord)
  {
  }
}
