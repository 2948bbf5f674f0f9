/**
 The failover modes of a replicaset and the strings they are written as.
 */
module FailoverModes {
  datatype Failover =
    | FailoverUnknown | FailoverOff | FailoverManual | FailoverEventual
    | FailoverElection | FailoverStateful | FailoverSupervised

  /** `strings.ToLower`, on the letters whose lower case is ASCII. */
  function LowerChar(c: char): char {
    if 'A' <= c <= 'Z' then (c as int + 32) as char
    else if c == '\U{0130}' then 'i'
    else if c == '\U{212A}' then 'k'
    else c
  }

  function Lower(s: string): string {
    seq(|s|, i requires 0 <= i < |s| => LowerChar(s[i]))
  }

  /** `ParseFailover` */
  function ParseFailover(str: string): Failover {
    var s := Lower(str);
    if s == "off" || s == "disabled" then FailoverOff
    else if s == "manual" then FailoverManual
    else if s == "eventual" then FailoverEventual
    else if s == "election" || s == "raft" then FailoverElection
    else if s == "stateful" then FailoverStateful
    else if s == "supervised" then FailoverSupervised
    else FailoverUnknown
  }

  /** The string is the word, in whatever case its ASCII letters are. */
  predicate Spells(str: string, word: string) {
    |str| == |word| && forall i :: 0 <= i < |str| ==> str[i] == word[i] || Upper(str[i], word[i])
  }

  /** A capital letter and its small one. */
  predicate Upper(big: char, small: char) {
    'a' <= small <= 'z' &&
    (big as int + 32 == small as int || (big == '\U{0130}' && small == 'i') || (big == '\U{212A}' && small == 'k'))
  }

  lemma LowerIs(c: char, w: char)
    requires 'a' <= w <= 'z'
    ensures LowerChar(c) == w <==> c == w || Upper(c, w)
  {
  }

  lemma LowerSpells(str: string, word: string)
    requires forall i :: 0 <= i < |word| ==> 'a' <= word[i] <= 'z'
    ensures Lower(str) == word <==> Spells(str, word)
  {
    hide LowerChar, Upper;
    forall i | 0 <= i < |str| && i < |word|
      ensures Lower(str)[i] == word[i] <==> str[i] == word[i] || Upper(str[i], word[i])
    {
      LowerIs(str[i], word[i]);
    }
  }

  /** Which strings stand for which mode. */
  predicate Means(str: string, f: Failover) {
    match f
    case FailoverOff => Spells(str, "off") || Spells(str, "disabled")
    case FailoverManual => Spells(str, "manual")
    case FailoverEventual => Spells(str, "eventual")
    case FailoverElection => Spells(str, "election") || Spells(str, "raft")
    case FailoverStateful => Spells(str, "stateful")
    case FailoverSupervised => Spells(str, "supervised")
    case FailoverUnknown =>
      && !Spells(str, "off") && !Spells(str, "disabled") && !Spells(str, "manual") && !Spells(str, "eventual")
      && !Spells(str, "election") && !Spells(str, "raft") && !Spells(str, "stateful") && !Spells(str, "supervised")
  }

  /** A string is parsed to a mode exactly when it spells one of its words, in any case. */
  lemma ParseMeans(str: string, f: Failover)
    ensures ParseFailover(str) == f <==> Means(str, f)
  {
    LowerSpells(str, "off");
    LowerSpells(str, "disabled");
    LowerSpells(str, "manual");
    LowerSpells(str, "eventual");
    LowerSpells(str, "election");
    LowerSpells(str, "raft");
    LowerSpells(str, "stateful");
    LowerSpells(str, "supervised");
    hide Lower, Spells;
  }
}
