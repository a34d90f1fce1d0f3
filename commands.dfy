/**
 * The text side of elobot.py: `WINNER_REGEX` and `CONFIRM_REGEX`, the
 * `re.split` calls that take their groups apart, the decimal conversions of
 * the captured digits, and the dispatch conditions of `EloBot.run`.
 *
 * The model takes the patterns with Python 2 semantics (byte-string
 * patterns), so `\d` is `[0-9]` and IGNORECASE folds ASCII letters only.
 * Every repetition in the two patterns is followed by a character it cannot
 * consume (or ends the pattern), so the greedy longest run is the only way a
 * match can proceed; the recognisers below take that run directly instead of
 * backtracking.
 */
module Commands {
  import opened Wrappers

  predicate IsDigit(c: char) { '0' <= c <= '9' }

  /** The class `[A-z0-9]`: the range A-z also holds `[ \ ] ^ _` and the backquote. */
  predicate IsIdChar(c: char) { 'A' <= c <= 'z' || IsDigit(c) }

  predicate AllDigits(s: string) { forall k :: 0 <= k < |s| ==> IsDigit(s[k]) }

  /** ASCII lower-casing, the folding IGNORECASE applies. */
  function Lower(c: char): (d: char)
  {
    if 'A' <= c <= 'Z' then (c as int + 32) as char else c
  }

  /** Does `lit` occur at position `i` of `s`, ignoring ASCII case? */
  predicate LiteralAt(s: string, i: nat, lit: string)
  {
    i + |lit| <= |s| && forall k :: 0 <= k < |lit| ==> Lower(s[i + k]) == Lower(lit[k])
  }

  /** End of the longest run of characters satisfying `p` that starts at `i`. */
  function SpanEnd(s: string, i: nat, p: char -> bool): (j: nat)
    requires i <= |s|
    ensures i <= j <= |s|
    ensures forall k :: i <= k < j ==> p(s[k])
    ensures j < |s| ==> !p(s[j])
    decreases |s| - i
  {
    if i == |s| || !p(s[i]) then i else SpanEnd(s, i + 1, p)
  }

  /** The value of a string of decimal digits, as `int(...)` reads it (leading zeros allowed). */
  function ParseNat(s: string): (n: nat)
    requires AllDigits(s)
    ensures s == [] ==> n == 0
    decreases |s|
  {
    if s == [] then 0 else 10 * ParseNat(s[..|s| - 1]) + (s[|s| - 1] as int - '0' as int)
  }

  /** `str(n)` on a non-negative integer. */
  function ShowNat(n: nat): (s: string)
    ensures |s| >= 1 && AllDigits(s)
    ensures s[0] != '0' || n == 0
    decreases n
  {
    if n < 10 then [('0' as int + n) as char] else ShowNat(n / 10) + [('0' as int + n % 10) as char]
  }

  /** Reading back what `str` printed gives the number again. */
  lemma {:induction false} ParseShowNat(n: nat)
    ensures ParseNat(ShowNat(n)) == n
    decreases n
  {
    if n >= 10 {
      var s := ShowNat(n);
      assert s[..|s| - 1] == ShowNat(n / 10);
      ParseShowNat(n / 10);
    }
  }

  // ---- WINNER_REGEX = '^I crushed <@([A-z0-9]*)> (\d+)-(\d+)', IGNORECASE ----

  const WinnerPrefix := "I crushed <@"

  /** The three groups of a winner report and the end of the matched prefix. */
  datatype WinnerHit = WinnerHit(loserId: string, first: string, second: string, end: nat)

  /** `WINNER_REGEX.match(text)`: the pattern matched against a prefix of the text. */
  function MatchWinner(s: string): (h: Option<WinnerHit>)
    ensures h.Some? ==> h.value.end <= |s| && AllDigits(h.value.first) && AllDigits(h.value.second)
    ensures h.Some? ==> |h.value.first| >= 1 && |h.value.second| >= 1
    ensures h.Some? ==> forall k :: 0 <= k < |h.value.loserId| ==> IsIdChar(h.value.loserId[k])
    ensures h.Some? ==> h.value.end == |s| || !IsDigit(s[h.value.end])
  {
    if !LiteralAt(s, 0, WinnerPrefix) then None
    else
      var idEnd := SpanEnd(s, |WinnerPrefix|, IsIdChar);
      if !LiteralAt(s, idEnd, "> ") then None
      else
        var firstEnd := SpanEnd(s, idEnd + 2, IsDigit);
        if firstEnd == idEnd + 2 || !LiteralAt(s, firstEnd, "-") then None
        else
          var secondEnd := SpanEnd(s, firstEnd + 1, IsDigit);
          if secondEnd == firstEnd + 1 then None
          else Some(WinnerHit(s[|WinnerPrefix|..idEnd], s[idEnd + 2..firstEnd], s[firstEnd + 1..secondEnd], secondEnd))
  }

  /**
   * The recogniser accepts only reports the pattern describes: the text
   * starts with the prefix (in any case), and the three groups are the
   * stretches of the text between the prefix, `> `, `-` and the end of the
   * match.
   */
  lemma MatchWinnerSound(s: string)
    requires MatchWinner(s).Some?
    ensures var h := MatchWinner(s).value;
            var idEnd := |WinnerPrefix| + |h.loserId|;
            var firstEnd := idEnd + 2 + |h.first|;
            && LiteralAt(s, 0, WinnerPrefix)
            && LiteralAt(s, idEnd, "> ") && LiteralAt(s, firstEnd, "-")
            && h.end == firstEnd + 1 + |h.second|
            && h.loserId == s[|WinnerPrefix|..idEnd]
            && h.first == s[idEnd + 2..firstEnd]
            && h.second == s[firstEnd + 1..h.end]
  {
  }

  /**
   * The recogniser finds every report the pattern describes: given the
   * boundaries of any decomposition of a prefix of `s` as prefix, id, "> ",
   * digits, "-", digits, it matches, with exactly that id and first score, and
   * a second score of which the given one is a prefix (the longest run wins).
   */
  lemma {:induction false} MatchWinnerComplete(s: string, idEnd: nat, firstEnd: nat, secondEnd: nat)
    requires LiteralAt(s, 0, WinnerPrefix)
    requires |WinnerPrefix| <= idEnd && idEnd + 2 < firstEnd && firstEnd + 1 < secondEnd <= |s|
    requires forall k :: |WinnerPrefix| <= k < idEnd ==> IsIdChar(s[k])
    requires s[idEnd] == '>' && s[idEnd + 1] == ' ' && s[firstEnd] == '-'
    requires forall k :: idEnd + 2 <= k < firstEnd ==> IsDigit(s[k])
    requires forall k :: firstEnd + 1 <= k < secondEnd ==> IsDigit(s[k])
    ensures MatchWinner(s).Some?
    ensures MatchWinner(s).value.loserId == s[|WinnerPrefix|..idEnd]
    ensures MatchWinner(s).value.first == s[idEnd + 2..firstEnd]
    ensures s[firstEnd + 1..secondEnd] <= MatchWinner(s).value.second
  {
    assert !IsIdChar(s[idEnd]) && !IsDigit(s[firstEnd]);
    var e1 := SpanEnd(s, |WinnerPrefix|, IsIdChar);
    assert e1 == idEnd;
    assert LiteralAt(s, idEnd, "> ");
    var e2 := SpanEnd(s, idEnd + 2, IsDigit);
    assert e2 == firstEnd;
    assert LiteralAt(s, firstEnd, "-");
    var e3 := SpanEnd(s, firstEnd + 1, IsDigit);
    assert e3 >= secondEnd;
  }

  /**
   * `re.split(WINNER_REGEX, text)`. The pattern is anchored with `^`, so it can
   * only match at the start: the split is the text alone, or the empty text
   * before the match, the three groups, and the rest of the text.
   */
  function SplitWinner(s: string): (parts: seq<string>)
    ensures |parts| == 5 <==> MatchWinner(s).Some?
    ensures |parts| == 5 ==> parts[0] == "" && AllDigits(parts[2]) && AllDigits(parts[3])
    ensures |parts| == 5 ==> parts[1] == MatchWinner(s).value.loserId
  {
    match MatchWinner(s)
    case None => [s]
    case Some(h) => ["", h.loserId, h.first, h.second, s[h.end..]]
  }

  // ---- CONFIRM_REGEX = 'Confirm (\d+)', IGNORECASE ----

  const ConfirmWord := "Confirm "

  datatype ConfirmHit = ConfirmHit(digits: string, end: nat)

  /** The pattern tried at position `i` of the text. */
  function ConfirmAt(s: string, i: nat): (h: Option<ConfirmHit>)
    ensures h.Some? ==> i + |ConfirmWord| < h.value.end <= |s|
    ensures h.Some? ==> h.value.digits == s[i + |ConfirmWord|..h.value.end] && AllDigits(h.value.digits)
    ensures h.Some? ==> h.value.end == |s| || !IsDigit(s[h.value.end])
    ensures h.Some? <==> LiteralAt(s, i, ConfirmWord) && i + |ConfirmWord| < |s| && IsDigit(s[i + |ConfirmWord|])
  {
    if !LiteralAt(s, i, ConfirmWord) then None
    else
      var e := SpanEnd(s, i + |ConfirmWord|, IsDigit);
      if e == i + |ConfirmWord| then None else Some(ConfirmHit(s[i + |ConfirmWord|..e], e))
  }

  /** `CONFIRM_REGEX.match(text)`: the pattern at the start of the text. */
  predicate MatchConfirm(s: string)
  {
    ConfirmAt(s, 0).Some?
  }

  /**
   * `re.split(CONFIRM_REGEX, text)` scanning from position `i`, the previous
   * match having ended at `last`: each match contributes the text before it
   * and its group, and the search resumes where the match ended.
   */
  function SplitConfirmFrom(s: string, last: nat, i: nat): (parts: seq<string>)
    requires last <= i <= |s|
    ensures |parts| % 2 == 1
    ensures forall k :: 0 <= k < |parts| && k % 2 == 1 ==> AllDigits(parts[k])
    decreases |s| - i
  {
    if i == |s| then [s[last..]]
    else match ConfirmAt(s, i)
      case Some(h) =>
        var rest := SplitConfirmFrom(s, h.end, h.end);
        var parts := [s[last..i], h.digits] + rest;
        assert forall k :: 2 <= k < |parts| ==> parts[k] == rest[k - 2];
        parts
      case None => SplitConfirmFrom(s, last, i + 1)
  }

  function SplitConfirm(s: string): (parts: seq<string>)
    ensures |parts| % 2 == 1
    ensures |parts| == 3 ==> AllDigits(parts[1])
  {
    SplitConfirmFrom(s, 0, 0)
  }

  /** For each position of the text, whether the pattern matches there. */
  function Hits(s: string): (b: seq<bool>)
    ensures |b| == |s| && forall i :: 0 <= i < |s| ==> b[i] == ConfirmAt(s, i).Some?
  {
    seq(|s|, i requires 0 <= i < |s| => ConfirmAt(s, i).Some?)
  }

  /** The number of `true` entries of `b` at or after `i`. */
  function CountTrue(b: seq<bool>, i: nat): (n: nat)
    requires i <= |b|
    decreases |b| - i
  {
    if i == |b| then 0 else (if b[i] then 1 else 0) + CountTrue(b, i + 1)
  }

  /** Counting from `i` sees the entry at `j` and everything after it. */
  lemma {:induction false} CountTruePast(b: seq<bool>, i: nat, j: nat)
    requires i <= j < |b| && b[j]
    ensures CountTrue(b, i) >= 1 + CountTrue(b, j + 1)
    decreases j - i
  {
    if i < j {
      CountTruePast(b, i + 1, j);
    }
  }

  /** The number of positions at or after `i` where the pattern matches. */
  function ConfirmCount(s: string, i: nat): (n: nat)
    requires i <= |s|
  {
    CountTrue(Hits(s), i)
  }

  /** Two matches of the pattern never overlap: no match starts inside another. */
  lemma {:induction false} NoMatchInside(s: string, i: nat, p: nat)
    requires ConfirmAt(s, i).Some?
    requires i < p < ConfirmAt(s, i).value.end
    ensures ConfirmAt(s, p).None?
  {
    if p < i + |ConfirmWord| {
      assert Lower(s[p]) == Lower(ConfirmWord[p - i]);
      assert Lower(s[p]) != Lower(ConfirmWord[0]);
    } else {
      assert IsDigit(s[p]) && Lower(s[p]) == s[p];
      assert Lower(s[p]) != Lower(ConfirmWord[0]);
    }
  }

  lemma {:induction false} CountSkipsInside(s: string, i: nat, p: nat)
    requires ConfirmAt(s, i).Some?
    requires i < p <= ConfirmAt(s, i).value.end
    ensures ConfirmCount(s, p) == ConfirmCount(s, ConfirmAt(s, i).value.end)
    decreases ConfirmAt(s, i).value.end - p
  {
    if p < ConfirmAt(s, i).value.end {
      NoMatchInside(s, i, p);
      CountSkipsInside(s, i, p + 1);
    }
  }

  /** The split has one part for the text after the last match and two per match. */
  lemma {:induction false} SplitConfirmLength(s: string, last: nat, i: nat)
    requires last <= i <= |s|
    ensures |SplitConfirmFrom(s, last, i)| == 1 + 2 * ConfirmCount(s, i)
    decreases |s| - i
  {
    if i < |s| {
      match ConfirmAt(s, i)
      case Some(h) =>
        SplitConfirmLength(s, h.end, h.end);
        CountSkipsInside(s, i, i + 1);
      case None =>
        SplitConfirmLength(s, last, i + 1);
    }
  }

  /** `confirm` proceeds (split of length 3) exactly when the pattern occurs once in the text. */
  lemma {:induction false} SplitConfirmAccepts(s: string)
    ensures |SplitConfirm(s)| == 3 <==> ConfirmCount(s, 0) == 1
  {
    SplitConfirmLength(s, 0, 0);
  }

  /** When the text starts with the pattern and is accepted, the id is that first match's digits. */
  lemma {:induction false} SplitConfirmId(s: string)
    requires MatchConfirm(s)
    requires |SplitConfirm(s)| == 3
    ensures SplitConfirm(s)[1] == ConfirmAt(s, 0).value.digits
  {
  }

  /** Two occurrences of `Confirm <n>` anywhere in the text make the split longer than 3. */
  lemma {:induction false} TwoConfirmsIgnored(s: string, i: nat, j: nat)
    requires i < j < |s|
    requires ConfirmAt(s, i).Some? && ConfirmAt(s, j).Some?
    ensures |SplitConfirm(s)| != 3
  {
    TwoTrue(Hits(s), i, j);
    SplitConfirmAccepts(s);
  }

  /** Two `true` entries make a count of at least two. */
  lemma {:induction false} TwoTrue(b: seq<bool>, i: nat, j: nat)
    requires i < j < |b| && b[i] && b[j]
    ensures CountTrue(b, 0) >= 2
  {
    CountTruePast(b, 0, i);
    CountTruePast(b, i + 1, j);
  }

  /** The prompt the bot prints, typed back, is split into that match id and nothing more. */
  lemma ConfirmPromptRoundTrip(id: nat)
    ensures SplitConfirm(ConfirmWord + ShowNat(id)) == ["", ShowNat(id), ""]
    ensures ParseNat(SplitConfirm(ConfirmWord + ShowNat(id))[1]) == id
  {
    var digits := ShowNat(id);
    var s := ConfirmWord + digits;
    assert LiteralAt(s, 0, ConfirmWord);
    var e := SpanEnd(s, |ConfirmWord|, IsDigit);
    assert forall k :: |ConfirmWord| <= k < |s| ==> s[k] == digits[k - |ConfirmWord|];
    assert e == |s|;
    assert s[|ConfirmWord|..e] == digits;
    assert ConfirmAt(s, 0) == Some(ConfirmHit(digits, |s|));
    assert s[|s|..] == "";
    assert SplitConfirmFrom(s, |s|, |s|) == [""];
    ParseShowNat(id);
  }

  // ---- dispatch in EloBot.run ----

  /** The fields of an incoming event that `run` looks at; absent ones are None. */
  datatype Message = Message(kind: Option<string>, channel: Option<string>, text: Option<string>, user: string)

  datatype Command = Ignored | SignUp | Report | Confirm | Leaderboard | Unrecognised

  /** `run` handles only messages of type `message`, in its channel, with non-empty text. */
  predicate Handled(m: Message, botChannel: string)
  {
    m.kind == Some("message") && m.channel == Some(botChannel) && m.text.Some? && m.text.value != ""
  }

  /** The rules of `run`, tried in order: exact sign-up, winner regex, confirm regex, exact leaderboard. */
  function Route(m: Message, botChannel: string): (c: Command)
    ensures c == Ignored <==> !Handled(m, botChannel)
    ensures c == SignUp <==> Handled(m, botChannel) && m.text.value == "Sign me up"
    ensures c == Leaderboard <==> Handled(m, botChannel) && m.text.value == "Print leaderboard"
    ensures c == Report <==> Handled(m, botChannel) && MatchWinner(m.text.value).Some?
    ensures c == Confirm <==> Handled(m, botChannel) && MatchConfirm(m.text.value)
  {
    if !Handled(m, botChannel) then Ignored
    else
      var text := m.text.value;
      RecognisersExclusive(text);
      if text == "Sign me up" then SignUp
      else if MatchWinner(text).Some? then Report
      else if MatchConfirm(text) then Confirm
      else if text == "Print leaderboard" then Leaderboard
      else Unrecognised
  }

  /**
   * No text is recognised by two of the four rules, so the order in which
   * `run` tries them never decides which command a message is.
   */
  lemma {:induction false} RecognisersExclusive(text: string)
    ensures !(text == "Sign me up" && MatchWinner(text).Some?)
    ensures !(text == "Sign me up" && MatchConfirm(text))
    ensures !(MatchWinner(text).Some? && MatchConfirm(text))
    ensures !(MatchWinner(text).Some? && text == "Print leaderboard")
    ensures !(MatchConfirm(text) && text == "Print leaderboard")
  {
    if MatchWinner(text).Some? {
      assert LiteralAt(text, 0, WinnerPrefix);
      assert WinnerPrefix[0] == 'I' && Lower('I') == 'i';
      assert Lower(text[0]) == 'i';
    }
    if MatchConfirm(text) {
      assert LiteralAt(text, 0, ConfirmWord);
      assert ConfirmWord[0] == 'C' && Lower('C') == 'c';
      assert Lower(text[0]) == 'c';
    }
  }
}
