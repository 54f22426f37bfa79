/**
 What clients of the RPC server read and what its option says, without the functions that the server's loops are
 proved against: printed objects are read back as JSON, a group that was written down is the group that is set up,
 and the replies to a joined command are counted.
 */
module ApiEffects {
  import opened Options
  import opened ApiText
  import opened ApiFields
  import opened ApiGroups

  // ----- replies as JSON -----

  lemma {:induction false} JsonString(s: string, rest: string)
    ensures Scan({'\"'}, Escape(s, true) + (['\"'] + rest)) == Piece(s, rest, Some('\"'))
  {
    if s == [] {
      assert Escape(s, true) + (['\"'] + rest) == ['\"'] + rest && (['\"'] + rest)[1..] == rest;
    } else {
      var more := Escape(s[1..], true) + (['\"'] + rest);
      var first := EscapeChar(s[0], true);
      assert Escape(s, true) + (['\"'] + rest) == first + more;
      assert (first + more)[|first|..] == more;
      assert (first + more)[0] == first[0] && (|first| == 2 ==> (first + more)[1] == first[1]);
      JsonString(s[1..], rest);
      assert s == [s[0]] + s[1..];
    }
  }

  /** Where a number or the like ends. */
  function PlainEnd(s: string): (n: nat)
    ensures n <= |s|
  {
    if s == [] || s[0] == ',' || s[0] == '}' then 0 else 1 + PlainEnd(s[1..])
  }

  /** A value of a JSON object: a string, or what stands before the next comma or brace. */
  function ReadValue(s: string): (r: (string, string))
    ensures |r.1| <= |s|
  {
    if s != [] && s[0] == '\"' then var p := Scan({'\"'}, s[1..]); (p.text, p.rest)
    else (s[..PlainEnd(s)], s[PlainEnd(s)..])
  }

  /** The members of a JSON object, from behind its opening brace or a comma. */
  function ReadMembers(s: string): Option<seq<(string, string)>>
    decreases |s|
  {
    if s == [] || s[0] != '\"' then None
    else
      var name := Scan({'\"'}, s[1..]);
      if name.rest == [] || name.rest[0] != ':' then None
      else
        var (value, rest) := ReadValue(name.rest[1..]);
        if rest == "}" then Some([(name.text, value)])
        else if rest == [] || rest[0] != ',' then None
        else
          var more := ReadMembers(rest[1..]);
          if more.None? then None else Some([(name.text, value)] + more.value)
  }

  function ReadObject(s: string): Option<seq<(string, string)>> {
    if s == [] || s[0] != '{' then None else ReadMembers(s[1..])
  }

  /** Text that JSON needs no backslashes for. */
  predicate PlainString(s: string) {
    forall i | 0 <= i < |s| :: s[i] != '\"' && s[i] != '\\'
  }

  predicate PlainNumber(s: string) {
    (s == [] || s[0] != '\"') && forall i | 0 <= i < |s| :: s[i] != ',' && s[i] != '}'
  }

  /** Numbers are printed as they are; strings are escaped or need not be. */
  predicate JsonReadable(f: Field) {
    PlainString(f.name) &&
    match f.kind
    case Quoted => PlainString(f.text)
    case Escaped => true
    case Plain => PlainNumber(f.text)
    case Unknown => true
  }

  /** What a client is to read of a field. */
  function Shown(f: Field): string {
    if f.kind.Unknown? then "Unknown" else f.text
  }

  function NamesAndShown(fields: seq<Field>): seq<(string, string)> {
    seq(|fields|, i requires 0 <= i < |fields| => (fields[i].name, Shown(fields[i])))
  }

  lemma {:induction false} PlainIsEscaped(s: string)
    requires PlainString(s)
    ensures Escape(s, true) == s
  {
    if s != [] {
      assert s == [s[0]] + s[1..];
      PlainIsEscaped(s[1..]);
    }
  }

  lemma {:induction false} PlainEndsAt(s: string, sep: char, rest: string)
    requires (forall i | 0 <= i < |s| :: s[i] != ',' && s[i] != '}') && (sep == ',' || sep == '}')
    ensures PlainEnd(s + ([sep] + rest)) == |s|
  {
    if s == [] {
      assert s + ([sep] + rest) == [sep] + rest;
    } else {
      assert (s + ([sep] + rest))[1..] == s[1..] + ([sep] + rest);
      PlainEndsAt(s[1..], sep, rest);
    }
  }

  /** The text between the quotes, if there are quotes. */
  lemma {:induction false} QuotedReadBack(s: string, rest: string)
    ensures ReadValue(['\"'] + Escape(s, true) + ['\"'] + rest) == (s, rest)
  {
    var all := ['\"'] + Escape(s, true) + ['\"'] + rest;
    assert all[1..] == Escape(s, true) + (['\"'] + rest);
    JsonString(s, rest);
  }

  lemma ValueReadBack(f: Field, sep: char, rest: string)
    requires JsonReadable(f) && (sep == ',' || sep == '}')
    ensures ReadValue(ValueText(f, true) + ([sep] + rest)) == (Shown(f), [sep] + rest)
  {
    var tail := [sep] + rest;
    if f.kind.Plain? {
      PlainEndsAt(f.text, sep, rest);
      var all := f.text + tail;
      assert all[..|f.text|] == f.text && all[|f.text|..] == tail;
    } else {
      if f.kind.Quoted? {
        PlainIsEscaped(f.text);
      }
      UnknownIsPlain();
      QuotedReadBack(Shown(f), tail);
      assert ValueText(f, true) + tail == ['\"'] + Escape(Shown(f), true) + ['\"'] + tail;
    }
  }

  lemma UnknownIsPlain()
    ensures Escape("Unknown", true) == "Unknown"
  {
    var s := "Unknown";
    assert PlainString(s);
    PlainIsEscaped(s);
  }

  lemma NameReadBack(f: Field, tail: string)
    requires PlainString(f.name)
    ensures var s := FieldText(f, true) + tail;
      s != [] && s[0] == '\"' && Scan({'\"'}, s[1..]) == Piece(f.name, [':'] + (ValueText(f, true) + tail), Some('\"'))
  {
    hide Scan, ValueText;
    PlainIsEscaped(f.name);
    JsonString(f.name, [':'] + (ValueText(f, true) + tail));
    var s := FieldText(f, true) + tail;
    assert s[1..] == f.name + (['\"'] + ([':'] + (ValueText(f, true) + tail)));
  }

  lemma {:induction false} MemberReadBack(f: Field, sep: char, rest: string)
    requires JsonReadable(f) && (sep == ',' || (sep == '}' && rest == []))
    ensures ReadMembers(FieldText(f, true) + ([sep] + rest)) ==
      if sep == '}' then Some([(f.name, Shown(f))])
      else var more := ReadMembers(rest); if more.None? then None else Some([(f.name, Shown(f))] + more.value)
  {
    var tail := [sep] + rest;
    NameReadBack(f, tail);
    ValueReadBack(f, sep, rest);
    hide Scan, FieldText, ValueText, ReadValue, Shown;
    assert tail[0] == sep && tail[1..] == rest && (sep == '}' ==> tail == "}") && (sep == ',' ==> tail != "}");
    var behind := [':'] + (ValueText(f, true) + tail);
    assert behind[1..] == ValueText(f, true) + tail;
  }

  lemma {:induction false} MembersReadBack(fields: seq<Field>)
    requires fields != [] && forall f | f in fields :: JsonReadable(f)
    ensures ReadMembers(FieldTexts(fields, true) + "}") == Some(NamesAndShown(fields))
    decreases |fields|
  {
    hide FieldText, JsonReadable, ReadMembers;
    var f := fields[0];
    if |fields| == 1 {
      assert fields[..0] == [];
      assert FieldTexts(fields, true) + "}" == FieldText(f, true) + (['}'] + []);
      MemberReadBack(f, '}', []);
      assert NamesAndShown(fields) == [(f.name, Shown(f))];
    } else {
      var rest := FieldTexts(fields[1..], true) + "}";
      FieldTextsFirst(fields, true);
      assert FieldTexts(fields, true) + "}" == FieldText(f, true) + ([','] + rest);
      MemberReadBack(f, ',', rest);
      MembersReadBack(fields[1..]);
      assert NamesAndShown(fields) == [(f.name, Shown(f))] + NamesAndShown(fields[1..]);
    }
  }

  lemma Braces(text: string)
    ensures var s := Opening(true, false) + text + Closing(true);
      s != [] && s[0] == '{' && s[1..] == text + "}"
  {
  }

  /** What is printed for JSON clients is an object whose members are the fields, in order. */
  lemma {:induction false} PrintedObjectReadsBack(fields: seq<Field>)
    requires fields != [] && forall f | f in fields :: JsonReadable(f)
    ensures ReadObject(Opening(true, false) + FieldTexts(fields, true) + Closing(true)) == Some(NamesAndShown(fields))
  {
    MembersReadBack(fields);
    Braces(FieldTexts(fields, true));
    hide ReadMembers, FieldTexts, NamesAndShown, JsonReadable, Opening, Closing;
  }

  lemma Bar(text: string)
    ensures Opening(false, false) + text + Closing(false) == text + "|"
  {
  }

  /** And for text clients it is a section that ends with a bar. */
  lemma {:induction false} PrintedSectionReadsBack(fields: seq<Field>)
    requires fields != [] && forall f | f in fields :: Readable(f)
    ensures ReadFields(Opening(false, false) + FieldTexts(fields, false) + Closing(false)) == Some(NamesAndValues(fields))
  {
    PrintedFieldsReadBack(fields);
    Bar(FieldTexts(fields, false));
    hide ReadFields, FieldTexts, Opening, Closing, NamesAndValues, Readable;
  }

  /** A further object is separated by a comma; a value that is missing is read as a string of its own. */
  lemma NextObject(isJson: bool, name: CString, kind: Kind)
    ensures Opening(isJson, true) == "," + Opening(isJson, false)
    ensures PlainString(name) ==> JsonReadable(FieldFor(name, kind, None)) && Shown(FieldFor(name, kind, None)) == "(null)"
    ensures forall text: CString :: FieldFor(name, kind, Some(text)).text == text && FieldFor(name, kind, Some(text)).kind == kind
  {
  }

  // ----- the option -----

  /** Letters of both cases go together, and nothing else changes. */
  lemma CaseIsLetters(c: char)
    ensures if 'A' <= c <= 'Z' then 'a' <= Lower(c) <= 'z' && Lower(c) - 'a' == c - 'A' && Upper(Lower(c)) == c
            else Lower(c) == c
    ensures if 'a' <= c <= 'z' then 'A' <= Upper(c) <= 'Z' && Upper(c) - 'A' == c - 'a' && Lower(Upper(c)) == c
            else Upper(c) == c
  {
  }

  function InLowerCase(s: string): (r: string)
    ensures |r| == |s|
  {
    if s == [] then [] else [Lower(s[0])] + InLowerCase(s[1..])
  }

  lemma {:induction false} LowerAt(s: string, i: nat)
    requires i < |s|
    ensures InLowerCase(s)[i] == Lower(s[i])
  {
    if i > 0 {
      LowerAt(s[1..], i - 1);
    }
  }

  /** Words are taken for the same exactly when they are the same in lower case, every character of them. */
  lemma {:induction false} SameInLowerCase(a: string, b: string)
    ensures SameIgnoringCase(a, b) <==> InLowerCase(a) == InLowerCase(b)
  {
    forall i | 0 <= i < |a| ensures InLowerCase(a)[i] == Lower(a[i]) { LowerAt(a, i); }
    forall i | 0 <= i < |b| ensures InLowerCase(b)[i] == Lower(b[i]) { LowerAt(b, i); }
    hide Lower, InLowerCase;
  }

  /** Words with a separator behind each. */
  function Terminated(words: seq<string>, sep: char): string {
    if words == [] then [] else words[0] + [sep] + Terminated(words[1..], sep)
  }

  lemma {:induction false} UptoSeparator(word: string, sep: char, rest: string)
    requires sep !in word
    ensures Upto(word + ([sep] + rest), sep) == |word|
  {
    if word == [] {
      assert word + ([sep] + rest) == [sep] + rest;
    } else {
      assert word == [word[0]] + word[1..] && (word + ([sep] + rest))[1..] == word[1..] + ([sep] + rest);
      UptoSeparator(word[1..], sep, rest);
    }
  }

  /** Words that were written down are read again, whatever they are. */
  lemma {:induction false} WrittenWordsAreRead(words: seq<string>, sep: char)
    requires forall w | w in words :: sep !in w
    ensures Pieces(Terminated(words, sep), sep) == words
  {
    hide Upto;
    if words != [] {
      var rest := Terminated(words[1..], sep);
      var s := words[0] + ([sep] + rest);
      assert Terminated(words, sep) == s;
      UptoSeparator(words[0], sep, rest);
      assert s[..|words[0]|] == words[0] && s[|words[0]| + 1..] == rest;
      WrittenWordsAreRead(words[1..], sep);
      assert words == [words[0]] + words[1..];
    }
  }

  lemma {:induction false} TerminatedStep(word: string, more: seq<string>, sep: char)
    ensures Terminated([word] + more, sep) == word + [sep] + Terminated(more, sep)
  {
    assert ([word] + more)[1..] == more;
  }

  function Ended(s: string, sep: char): string {
    if s == [] || s[|s| - 1] == sep then s else s + [sep]
  }

  lemma EndedStep(word: string, rest: string, sep: char)
    ensures Ended(word + [sep] + rest, sep) == word + [sep] + Ended(rest, sep)
  {
  }

  /** Only the last separator may be missing. */
  lemma {:induction false} PiecesAreWords(s: string, sep: char)
    ensures forall w | w in Pieces(s, sep) :: sep !in w
    ensures Terminated(Pieces(s, sep), sep) == Ended(s, sep)
    decreases |s|
  {
    hide Terminated, Ended, Upto;
    if s == [] {
      NoWords(sep);
    } else {
      var n := Upto(s, sep);
      var rest := if n < |s| then s[n + 1..] else [];
      PiecesAreWords(rest, sep);
      TerminatedStep(s[..n], Pieces(rest, sep), sep);
      if n < |s| {
        EndedStep(s[..n], rest, sep);
        assert s == s[..n] + [sep] + rest;
      } else {
        LastIsNone(s, sep);
        NoWords(sep);
        assert s[..n] == s && s + [sep] + [] == s + [sep];
      }
    }
  }

  lemma {:induction false} NoWords(sep: char)
    ensures Terminated([], sep) == [] == Ended([], sep)
  {
  }

  lemma LastIsNone(s: string, sep: char)
    requires s != [] && sep !in s
    ensures Ended(s, sep) == s + [sep]
  {
  }

  /** The table's first command with this name, in whatever case. */
  ghost predicate FirstMatch(cmds: seq<Cmd>, word: string, k: nat) {
    k < |cmds| && SameIgnoringCase(word, cmds[k].name) && forall i | 0 <= i < k :: !SameIgnoringCase(word, cmds[i].name)
  }

  ghost predicate Matches(cmds: seq<Cmd>, word: string, name: string) {
    exists k: nat :: FirstMatch(cmds, word, k) && cmds[k].name == name
  }

  ghost predicate MatchesSome(cmds: seq<Cmd>, word: string) {
    exists k: nat :: FirstMatch(cmds, word, k)
  }

  lemma {:induction false} LookupIsFirstMatch(cmds: seq<Cmd>, word: string)
    ensures forall k: nat :: FirstMatch(cmds, word, k) <==> k < |cmds| && k == Lookup(cmds, word)
  {
  }

  /** The group that was written with these words: what it may do. */
  lemma {:induction false} WrittenGroupGrants(cmds: seq<Cmd>, letter: char, words: seq<string>, name: string)
    requires forall w | w in words :: ':' !in w
    ensures Grants(cmds, [letter, ':'] + Terminated(words, ':'), name) <==>
      (exists w | w in words :: w != "*" && Matches(cmds, w, name)) ||
      ("*" in words && exists k | 0 <= k < |cmds| :: cmds[k].name == name && !cmds[k].isWriteMode)
  {
    var def := [letter, ':'] + Terminated(words, ':');
    assert def[2..] == Terminated(words, ':');
    WrittenWordsAreRead(words, ':');
    forall w ensures Names(cmds, w, name) <==> w != "*" && Matches(cmds, w, name) {
      LookupIsFirstMatch(cmds, w);
      assert FirstMatch(cmds, w, Lookup(cmds, w)) <==> Lookup(cmds, w) < |cmds|;
    }
    hide Names, Matches, Terminated, Pieces;
    if w :| w in words && w != "*" && Matches(cmds, w, name) {
      var i :| 0 <= i < |words| && words[i] == w;
      assert Names(cmds, words[i], name);
    }
  }

  /** And when it may be written so: a letter that is neither R nor W nor taken, in either case, and known words. */
  lemma {:induction false} WrittenGroupIsValid(cmds: seq<Cmd>, letter: char, words: seq<string>, taken: set<char>)
    requires forall w | w in words :: ':' !in w
    ensures ValidGroup(cmds, [letter, ':'] + Terminated(words, ':'), taken) <==>
      ('a' <= letter <= 'z' || 'A' <= letter <= 'Z') && letter !in {'R', 'r', 'W', 'w'} && Upper(letter) !in taken &&
      forall w | w in words :: w == "*" || MatchesSome(cmds, w)
  {
    var def := [letter, ':'] + Terminated(words, ':');
    assert def[2..] == Terminated(words, ':');
    WrittenWordsAreRead(words, ':');
    forall w ensures Lookup(cmds, w) < |cmds| <==> MatchesSome(cmds, w) {
      LookupIsFirstMatch(cmds, w);
      assert FirstMatch(cmds, w, Lookup(cmds, w)) <==> Lookup(cmds, w) < |cmds|;
    }
    hide Lookup, MatchesSome, Terminated, Pieces;
    assert Known(cmds, words) <==> forall w | w in words :: w == "*" || MatchesSome(cmds, w) by {
      assert forall i | 0 <= i < |words| :: words[i] in words;
    }
  }

  /** What is not a letter, a colon and words is no group. */
  lemma OtherDefinitionsAreInvalid(cmds: seq<Cmd>, def: string, taken: set<char>)
    requires |def| < 2 || def[1] != ':'
    ensures !ValidGroup(cmds, def, taken)
  {
  }

  lemma {:induction false} LettersTaken(defs: seq<string>, i: nat)
    requires i < |defs| && defs[i] != []
    ensures Upper(defs[i][0]) in LettersOf(defs)
  {
    hide Upper;
    if i < |defs| - 1 {
      LettersTaken(defs[..|defs| - 1], i);
    }
  }

  /** No letter is defined twice, in either case. */
  lemma NoLetterTwice(cmds: seq<Cmd>, defs: seq<string>, i: nat, j: nat)
    requires ValidGroups(cmds, defs) && i < j < |defs|
    ensures defs[i] != [] && defs[j] != [] && Lower(defs[i][0]) != Lower(defs[j][0])
  {
    hide Known, Pieces;
    assert ValidGroup(cmds, defs[i], LettersOf(defs[..i])) && ValidGroup(cmds, defs[j], LettersOf(defs[..j]));
    LettersTaken(defs[..j], i);
    CaseIsLetters(defs[i][0]);
    CaseIsLetters(defs[j][0]);
  }

  // ----- joined commands -----

  function JoinedLine(words: seq<string>): string
    requires words != []
  {
    if |words| == 1 then words[0] else words[0] + ['+'] + JoinedLine(words[1..])
  }

  lemma {:induction false} JoinedLineStep(word: string, more: seq<string>)
    requires more != []
    ensures JoinedLine([word] + more) == word + ['+'] + JoinedLine(more)
  {
    assert ([word] + more)[1..] == more;
  }

  lemma JoinedLineOfOne(word: string)
    ensures JoinedLine([word]) == word
  {
  }

  /** A line is the words it is cut into, joined with plus signs. */
  lemma {:induction false} LineIsItsWords(line: string)
    ensures JoinedLine(Words(line)) == line && forall w | w in Words(line) :: '+' !in w
    decreases |line|
  {
    var n := Upto(line, CMDJOIN);
    hide Upto, JoinedLine;
    if n < |line| {
      LineIsItsWords(line[n + 1..]);
      JoinedLineStep(line[..n], Words(line[n + 1..]));
      assert line == line[..n] + ['+'] + line[n + 1..];
    } else {
      JoinedLineOfOne(line);
      assert line[..n] == line;
    }
  }

  predicate IsKnown(cmds: seq<Cmd>, name: string) {
    exists k | 0 <= k < |cmds| :: cmds[k].name == name
  }

  function UnknownWords(cmds: seq<Cmd>, words: seq<string>): nat {
    if words == [] then 0
    else
      var w := words[|words| - 1];
      UnknownWords(cmds, words[..|words| - 1]) + if w != "" && !IsKnown(cmds, w) then 1 else 0
  }

  function TimesIn(replies: seq<Reply>, reply: Reply): nat {
    if replies == [] then 0
    else TimesIn(replies[..|replies| - 1], reply) + if replies[|replies| - 1] == reply then 1 else 0
  }

  lemma {:induction false} TimesInAppend(replies: seq<Reply>, last: Reply, reply: Reply)
    ensures TimesIn(replies + [last], reply) == TimesIn(replies, reply) + if last == reply then 1 else 0
  {
    assert (replies + [last])[..|replies + [last]| - 1] == replies;
  }

  lemma {:induction false} ExactlyKnown(cmds: seq<Cmd>, name: string)
    ensures Exactly(cmds, name) < |cmds| <==> IsKnown(cmds, name)
  {
  }

  /** Every unknown word is answered, each time; every known one that is not run is refused, once. */
  lemma {:induction false} EachIsAnswered(cmds: seq<Cmd>, allowed: set<string>, words: seq<string>, name: string)
    ensures TimesIn(Replies(cmds, allowed, words), Invalid) == UnknownWords(cmds, words)
    ensures TimesIn(Replies(cmds, allowed, words), Denied(name)) ==
      if name in words && name != "" && IsKnown(cmds, name) && !RunsIn(cmds, allowed, words, name) then 1 else 0
    ensures |Replies(cmds, allowed, words)| <= |words|
  {
    hide Exactly, TimesIn, IsKnown;
    if words == [] {
      NothingAnswered(name);
    } else {
      var earlier, word := words[..|words| - 1], words[|words| - 1];
      EachIsAnswered(cmds, allowed, earlier, name);
      ExactlyKnown(cmds, word);
      TimesInAppend(Replies(cmds, allowed, earlier), ReplyTo(cmds, allowed, word), Invalid);
      TimesInAppend(Replies(cmds, allowed, earlier), ReplyTo(cmds, allowed, word), Denied(name));
      assert name in words <==> name in earlier || name == word;
    }
  }

  lemma NothingAnswered(name: string)
    ensures TimesIn([], Invalid) == TimesIn([], Denied(name)) == 0
  {
  }

  /** The replies come in the order of the words: more words only add to them. */
  lemma {:induction false} RepliesInOrder(cmds: seq<Cmd>, allowed: set<string>, words: seq<string>, n: nat)
    requires n <= |words|
    ensures Replies(cmds, allowed, words[..n]) <= Replies(cmds, allowed, words)
  {
    if n == |words| {
      assert words[..n] == words;
    } else {
      assert words[..|words| - 1][..n] == words[..n];
      RepliesInOrder(cmds, allowed, words[..|words| - 1], n);
    }
  }
}
