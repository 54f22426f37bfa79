/**
 Command groups of the RPC server (api.c).  A group is a string of command names with separators around
 each, and a command is looked up as a substring; joined commands are run at most once the same way.
 */
module ApiGroups {
  import opened Options

  const SEPARATOR := '|'

  datatype Cmd = Cmd(name: string, isWriteMode: bool, joinable: bool)

  predicate SeparatorFree(s: string) {
    SEPARATOR !in s
  }

  /** The command table: no name contains a separator, and no name occurs twice. */
  predicate WellFormed(cmds: seq<Cmd>) {
    && (forall i | 0 <= i < |cmds| :: SeparatorFree(cmds[i].name))
    && (forall i, j | 0 <= i < j < |cmds| :: cmds[i].name != cmds[j].name)
  }

  // ----- group strings and sets of names -----

  function Joined(names: seq<string>): string {
    if names == [] then [SEPARATOR] else [SEPARATOR] + names[0] + Joined(names[1..])
  }

  function Needle(name: string): string {
    [SEPARATOR] + name + [SEPARATOR]
  }

  predicate OccursAt(hay: string, needle: string, i: nat) {
    i + |needle| <= |hay| && hay[i..i + |needle|] == needle
  }

  /** strstr. */
  predicate Contains(hay: string, needle: string) {
    exists i: nat | i <= |hay| :: OccursAt(hay, needle, i)
  }

  predicate AllSeparatorFree(names: seq<string>) {
    forall i | 0 <= i < |names| :: SeparatorFree(names[i])
  }

  lemma {:induction false} JoinedStarts(names: seq<string>)
    ensures Joined(names) != [] && Joined(names)[0] == SEPARATOR
  {
  }

  /** The first separator after position 0 is at one position only. */
  lemma FirstSeparator(hay: string, p: nat, q: nat)
    requires 0 < p < |hay| && hay[p] == SEPARATOR && forall k | 0 < k < p :: hay[k] != SEPARATOR
    requires 0 < q < |hay| && hay[q] == SEPARATOR && forall k | 0 < k < q :: hay[k] != SEPARATOR
    ensures p == q
  {
  }

  lemma FirstName(n: string, more: string, c: string)
    requires SeparatorFree(n) && SeparatorFree(c) && more != [] && more[0] == SEPARATOR
    ensures OccursAt([SEPARATOR] + n + more, Needle(c), 0) <==> c == n
  {
    var hay := [SEPARATOR] + n + more;
    assert forall k | 0 < k <= |n| :: hay[k] == n[k - 1] != SEPARATOR;
    if OccursAt(hay, Needle(c), 0) {
      assert hay[..|c| + 2] == Needle(c);
      assert forall k | 0 <= k < |c| + 2 :: hay[k] == hay[..|c| + 2][k] == Needle(c)[k];
      forall k | 0 < k <= |c|
        ensures hay[k] == c[k - 1] && hay[k] != SEPARATOR
      {
        assert Needle(c)[k] == c[k - 1];
      }
      FirstSeparator(hay, |c| + 1, |n| + 1);
      forall k | 0 <= k < |c|
        ensures c[k] == n[k]
      {
        assert hay[k + 1] == Needle(c)[k + 1];
      }
    }
  }

  lemma LaterName(n: string, more: string, c: string, i: nat)
    requires SeparatorFree(n) && i > 0
    ensures OccursAt([SEPARATOR] + n + more, Needle(c), i)
       <==> i >= |n| + 1 && OccursAt(more, Needle(c), i - |n| - 1)
  {
    var hay := [SEPARATOR] + n + more;
    assert forall k | 0 < k <= |n| :: hay[k] == n[k - 1] != SEPARATOR;
    if i > |n| && i + |Needle(c)| <= |hay| {
      assert hay[i..i + |Needle(c)|] == more[i - |n| - 1..i - |n| - 1 + |Needle(c)|];
    }
    if OccursAt(hay, Needle(c), i) {
      assert hay[i] == hay[i..i + |Needle(c)|][0] == SEPARATOR;
    }
  }

  /** A name with separators around it is a substring of a group string exactly when it is one of the names
      of the group. */
  lemma {:induction false} LookupIsMembership(names: seq<string>, c: string)
    requires AllSeparatorFree(names) && SeparatorFree(c)
    ensures Contains(Joined(names), Needle(c)) <==> c in names
  {
    var hay := Joined(names);
    if names == [] {
      assert forall i: nat :: !OccursAt(hay, Needle(c), i);
    } else {
      var n, rest := names[0], names[1..];
      var more := Joined(rest);
      JoinedStarts(rest);
      LookupIsMembership(rest, c);
      FirstName(n, more, c);
      if Contains(hay, Needle(c)) {
        var i: nat :| i <= |hay| && OccursAt(hay, Needle(c), i);
        if i > 0 {
          LaterName(n, more, c, i);
          assert OccursAt(more, Needle(c), i - |n| - 1);
        }
      }
      if c in rest {
        var i: nat :| i <= |more| && OccursAt(more, Needle(c), i);
        LaterName(n, more, c, i + |n| + 1);
      }
      if c == n {
        assert OccursAt(hay, Needle(c), 0);
      }
    }
  }

  lemma {:induction false} JoinedAppend(names: seq<string>, c: string)
    ensures Joined(names + [c]) == Joined(names) + c + [SEPARATOR]
  {
    if names == [] {
      assert [c][1..] == [] && Joined([c]) == [SEPARATOR] + c + [SEPARATOR];
    } else {
      assert (names + [c])[1..] == names[1..] + [c];
      JoinedAppend(names[1..], c);
    }
  }

  // ----- setting a group up -----

  function Lower(c: char): char {
    if 'A' <= c <= 'Z' then c + 32 as char else c
  }

  /** strcasecmp gives 0. */
  predicate SameIgnoringCase(a: string, b: string) {
    |a| == |b| && forall i | 0 <= i < |a| :: Lower(a[i]) == Lower(b[i])
  }

  /** The first command that a word stands for, or the number of commands. */
  function Lookup(cmds: seq<Cmd>, word: string): (k: nat)
    ensures k <= |cmds| && (k < |cmds| ==> SameIgnoringCase(word, cmds[k].name))
    ensures forall i | 0 <= i < k :: !SameIgnoringCase(word, cmds[i].name)
  {
    if cmds == [] then 0
    else if SameIgnoringCase(word, cmds[|cmds| - 1].name) then
      var k := Lookup(cmds[..|cmds| - 1], word);
      if k < |cmds| - 1 then k else |cmds| - 1
    else
      var k := Lookup(cmds[..|cmds| - 1], word);
      if k < |cmds| - 1 then k else |cmds|
  }

  predicate NoDuplicates(names: seq<string>) {
    forall i, j | 0 <= i < j < |names| :: names[i] != names[j]
  }

  predicate Known(cmds: seq<Cmd>, words: seq<string>) {
    forall i | 0 <= i < |words| :: words[i] == "*" || Lookup(cmds, words[i]) < |cmds|
  }

  predicate Names(cmds: seq<Cmd>, word: string, name: string) {
    word != "*" && Lookup(cmds, word) < |cmds| && cmds[Lookup(cmds, word)].name == name
  }

  /** A word of the list names the command. */
  predicate Listed(cmds: seq<Cmd>, words: seq<string>, name: string) {
    exists i | 0 <= i < |words| :: Names(cmds, words[i], name)
  }

  predicate ReadOnly(cmds: seq<Cmd>, name: string) {
    exists i | 0 <= i < |cmds| :: cmds[i].name == name && !cmds[i].isWriteMode
  }

  /** The group string being built, and the names in it. */
  ghost predicate Builds(commands: string, names: seq<string>) {
    commands == Joined(names) && NoDuplicates(names) && AllSeparatorFree(names)
  }

  method AddCommand(commands: string, ghost names: seq<string>, name: string) returns (commands': string, ghost names': seq<string>)
    requires Builds(commands, names) && SeparatorFree(name)
    ensures Builds(commands', names')
    ensures forall c :: c in names' <==> c in names || c == name
  {
    LookupIsMembership(names, name);
    if !Contains(commands, Needle(name)) {
      JoinedAppend(names, name);
      commands' := commands + name + [SEPARATOR];
      names' := names + [name];
    } else {
      commands' := commands;
      names' := names;
    }
  }

  method AddReadOnly(cmds: seq<Cmd>, commands: string, ghost names: seq<string>) returns (commands': string, ghost names': seq<string>)
    requires WellFormed(cmds) && Builds(commands, names)
    ensures Builds(commands', names')
    ensures forall c :: c in names' <==> c in names || ReadOnly(cmds, c)
  {
    commands', names' := commands, names;
    for i := 0 to |cmds|
      invariant Builds(commands', names')
      invariant forall c :: c in names' <==> c in names || ReadOnly(cmds[..i], c)
    {
      ReadOnlyStep(cmds, i);
      if !cmds[i].isWriteMode {
        commands', names' := AddCommand(commands', names', cmds[i].name);
      }
    }
    assert cmds[..|cmds|] == cmds;
  }

  lemma ReadOnlyStep(cmds: seq<Cmd>, i: nat)
    requires i < |cmds|
    ensures forall c :: ReadOnly(cmds[..i + 1], c) <==> ReadOnly(cmds[..i], c) || (c == cmds[i].name && !cmds[i].isWriteMode)
  {
    forall c ensures ReadOnly(cmds[..i + 1], c) <==> ReadOnly(cmds[..i], c) || (c == cmds[i].name && !cmds[i].isWriteMode) {
      if ReadOnly(cmds[..i], c) {
        var k :| 0 <= k < i && cmds[..i][k].name == c && !cmds[..i][k].isWriteMode;
        assert cmds[..i + 1][k] == cmds[..i][k];
      }
      if c == cmds[i].name && !cmds[i].isWriteMode {
        assert cmds[..i + 1][i] == cmds[i];
      }
    }
  }

  method FindCommand(cmds: seq<Cmd>, word: string) returns (k: nat)
    ensures k == Lookup(cmds, word)
  {
    k := 0;
    while k < |cmds| && !SameIgnoringCase(word, cmds[k].name)
      invariant 0 <= k <= |cmds|
      invariant forall i | 0 <= i < k :: !SameIgnoringCase(word, cmds[i].name)
    {
      k := k + 1;
    }
  }

  /** The command list of one group.  An unknown command stops the program. */
  method BuildGroup(cmds: seq<Cmd>, words: seq<string>) returns (commands: Option<string>, ghost names: seq<string>)
    requires WellFormed(cmds)
    ensures commands.Some? <==> Known(cmds, words)
    ensures commands.Some? ==> Builds(commands.value, names)
    ensures commands.Some? ==> forall c :: c in names <==> Listed(cmds, words, c) || ("*" in words && ReadOnly(cmds, c))
  {
    var cmd := [SEPARATOR];
    names := [];
    var addStar := false;
    for i := 0 to |words|
      invariant Known(cmds, words[..i]) && Builds(cmd, names)
      invariant addStar <==> "*" in words[..i]
      invariant forall c :: c in names <==> Listed(cmds, words[..i], c)
    {
      assert words[..i + 1] == words[..i] + [words[i]];
      ListedStep(cmds, words, i);
      if words[i] == "*" {
        addStar := true;
      } else {
        var k := FindCommand(cmds, words[i]);
        if k == |cmds| {
          return None, names;
        }
        cmd, names := AddCommand(cmd, names, cmds[k].name);
      }
    }
    assert words[..|words|] == words;
    if addStar {
      cmd, names := AddReadOnly(cmds, cmd, names);
    }
    commands := Some(cmd);
  }

  lemma ListedStep(cmds: seq<Cmd>, words: seq<string>, i: nat)
    requires i < |words|
    ensures forall c :: Listed(cmds, words[..i + 1], c) <==> (Listed(cmds, words[..i], c) || Names(cmds, words[i], c))
  {
    forall c ensures Listed(cmds, words[..i + 1], c) <==> (Listed(cmds, words[..i], c) || Names(cmds, words[i], c)) {
      if Listed(cmds, words[..i], c) {
        var k :| 0 <= k < i && Names(cmds, words[..i][k], c);
        assert words[..i + 1][k] == words[..i][k];
      }
      assert words[..i + 1][i] == words[i];
    }
  }

  // ----- reading the option -----

  /** Cuts a string at a separator; nothing after the last separator is not a piece. */
  function Pieces(s: string, sep: char): seq<string>
    decreases |s|
  {
    if s == [] then []
    else
      var n := Upto(s, sep);
      [s[..n]] + Pieces(if n < |s| then s[n + 1..] else [], sep)
  }

  /** strchr: where the separator is, or the length of the string. */
  function Upto(s: string, sep: char): (n: nat)
    ensures n <= |s| && sep !in s[..n] && (n < |s| ==> s[n] == sep)
  {
    if s == [] || s[0] == sep then 0
    else
      var n := 1 + Upto(s[1..], sep);
      assert s[..n] == [s[0]] + s[1..][..n - 1];
      n
  }

  function Upper(c: char): char {
    if 'a' <= c <= 'z' then c - 32 as char else c
  }

  const PRIVGROUP := 'W'
  const NOPRIVGROUP := 'R'

  /** A group definition: a letter that is free to be defined, a colon, and known commands. */
  predicate ValidGroup(cmds: seq<Cmd>, def: string, taken: set<char>) {
    && |def| >= 2 && def[1] == ':'
    && 'A' <= Upper(def[0]) <= 'Z' && Upper(def[0]) != PRIVGROUP && Upper(def[0]) != NOPRIVGROUP
    && Upper(def[0]) !in taken
    && Known(cmds, Pieces(def[2..], ':'))
  }

  function LettersOf(defs: seq<string>): set<char> {
    if defs == [] then {}
    else LettersOf(defs[..|defs| - 1]) + if defs[|defs| - 1] != [] then {Upper(defs[|defs| - 1][0])} else {}
  }

  predicate ValidGroups(cmds: seq<Cmd>, defs: seq<string>) {
    forall i | 0 <= i < |defs| :: ValidGroup(cmds, defs[i], LettersOf(defs[..i]))
  }

  /** What a group may do: the commands its definition lists, and with a star all that do not write. */
  predicate Grants(cmds: seq<Cmd>, def: string, name: string) {
    |def| >= 2 && (Listed(cmds, Pieces(def[2..], ':'), name) || ("*" in Pieces(def[2..], ':') && ReadOnly(cmds, name)))
  }

  /** The substring lookup in a group's string gives exactly what the group may do. */
  ghost predicate Decides(commands: string, cmds: seq<Cmd>, def: string) {
    forall name | SeparatorFree(name) :: Contains(commands, Needle(name)) <==> Grants(cmds, def, name)
  }

  ghost predicate DecidesReadOnly(commands: string, cmds: seq<Cmd>) {
    forall name | SeparatorFree(name) :: Contains(commands, Needle(name)) <==> ReadOnly(cmds, name)
  }

  /** The group that a definition defines is set up and decides as the definition says. */
  ghost predicate GroupSet(cmds: seq<Cmd>, def: string, groups: map<char, string>) {
    def != [] && Upper(def[0]) in groups && Decides(groups[Upper(def[0])], cmds, def)
  }

  method SetupGroup(cmds: seq<Cmd>, def: string, taken: set<char>) returns (commands: Option<string>)
    requires WellFormed(cmds)
    ensures commands.Some? <==> ValidGroup(cmds, def, taken)
    ensures commands.Some? ==> Decides(commands.value, cmds, def)
  {
    if |def| < 2 || def[1] != ':' {
      return None;
    }
    var group := Upper(def[0]);
    if !('A' <= group <= 'Z') || group == PRIVGROUP || group == NOPRIVGROUP || group in taken {
      return None;
    }
    var words := Pieces(def[2..], ':');
    ghost var names;
    commands, names := BuildGroup(cmds, words);
    if commands.Some? {
      forall name | SeparatorFree(name) ensures Contains(commands.value, Needle(name)) <==> Grants(cmds, def, name) {
        LookupIsMembership(names, name);
      }
    }
  }

  lemma KeepGroups(cmds: seq<Cmd>, defs: seq<string>, groups: map<char, string>, letter: char, commands: string)
    requires letter !in groups
    requires forall k | 0 <= k < |defs| :: GroupSet(cmds, defs[k], groups)
    ensures forall k | 0 <= k < |defs| :: GroupSet(cmds, defs[k], groups[letter := commands])
  {
    hide Decides;
  }

  lemma NewGroup(cmds: seq<Cmd>, def: string, groups: map<char, string>, commands: string)
    requires def != [] && Decides(commands, cmds, def)
    ensures GroupSet(cmds, def, groups[Upper(def[0]) := commands])
  {
    hide Decides, Upper;
  }

  /** The groups found so far are those that the definitions define. */
  ghost predicate Defined(cmds: seq<Cmd>, defs: seq<string>, found: map<char, string>) {
    ValidGroups(cmds, defs) && found.Keys == LettersOf(defs) && NOPRIVGROUP !in found &&
    forall k | 0 <= k < |defs| :: GroupSet(cmds, defs[k], found)
  }

  lemma DefineGroup(cmds: seq<Cmd>, defs: seq<string>, i: nat, found: map<char, string>, commands: string)
    requires i < |defs| && Defined(cmds, defs[..i], found)
    requires ValidGroup(cmds, defs[i], found.Keys) && Decides(commands, cmds, defs[i])
    ensures defs[i] != [] && Defined(cmds, defs[..i + 1], found[Upper(defs[i][0]) := commands])
  {
    ValidGroupsStep(cmds, defs, i);
    ValidGroupLetter(cmds, defs[i], found.Keys);
    hide Decides, ValidGroup, ValidGroups, GroupSet, Upper;
    var more := defs[..i + 1];
    assert more[..i] == defs[..i] && more[i] == defs[i];
    KeepGroups(cmds, defs[..i], found, Upper(defs[i][0]), commands);
    NewGroup(cmds, defs[i], found, commands);
    forall k | 0 <= k < i + 1
      ensures GroupSet(cmds, more[k], found[Upper(defs[i][0]) := commands])
    {
      if k < i {
        assert more[k] == defs[..i][k];
      }
    }
  }

  /**
   The option is a list of group definitions.  Either all are valid and every group, and the read-only
   group R, decides as it should, or the program stops.
   */
  method SetupGroups(cmds: seq<Cmd>, apiGroups: string) returns (groups: Option<map<char, string>>)
    requires WellFormed(cmds)
    ensures groups.Some? <==> ValidGroups(cmds, Pieces(apiGroups, ','))
    ensures groups.Some? ==> groups.value.Keys == LettersOf(Pieces(apiGroups, ',')) + {NOPRIVGROUP}
    ensures groups.Some? ==> var defs := Pieces(apiGroups, ',');
      forall i | 0 <= i < |defs| :: GroupSet(cmds, defs[i], groups.value)
    ensures groups.Some? ==> DecidesReadOnly(groups.value[NOPRIVGROUP], cmds)
  {
    hide Pieces, Decides, DecidesReadOnly, ValidGroup, GroupSet, Upper, LettersOf;
    var defs := Pieces(apiGroups, ',');
    var found: map<char, string> := map[];
    NoGroups(cmds);
    for i := 0 to |defs|
      invariant Defined(cmds, defs[..i], found)
    {
      ValidGroupsStep(cmds, defs, i);
      var commands := SetupGroup(cmds, defs[i], found.Keys);
      if commands.None? {
        return None;
      }
      DefineGroup(cmds, defs, i, found, commands.value);
      found := found[Upper(defs[i][0]) := commands.value];
    }
    assert defs[..|defs|] == defs;
    var readOnly := SetupReadOnlyGroup(cmds);
    KeepGroups(cmds, defs, found, NOPRIVGROUP, readOnly);
    return Some(found[NOPRIVGROUP := readOnly]);
  }

  lemma NoGroups(cmds: seq<Cmd>)
    ensures Defined(cmds, [], map[])
  {
  }

  /** R may do all commands that do not write. */
  method SetupReadOnlyGroup(cmds: seq<Cmd>) returns (commands: string)
    requires WellFormed(cmds)
    ensures DecidesReadOnly(commands, cmds)
  {
    ghost var names;
    commands, names := AddReadOnly(cmds, [SEPARATOR], []);
    forall name | SeparatorFree(name) ensures Contains(commands, Needle(name)) <==> ReadOnly(cmds, name) {
      LookupIsMembership(names, name);
    }
  }

  lemma ValidGroupLetter(cmds: seq<Cmd>, def: string, taken: set<char>)
    requires ValidGroup(cmds, def, taken)
    ensures def != [] && Upper(def[0]) !in taken && Upper(def[0]) != NOPRIVGROUP
  {
  }

  lemma ValidGroupsStep(cmds: seq<Cmd>, defs: seq<string>, i: nat)
    requires i < |defs|
    ensures !ValidGroup(cmds, defs[i], LettersOf(defs[..i])) ==> !ValidGroups(cmds, defs)
    ensures ValidGroups(cmds, defs[..i + 1])
       <==> ValidGroups(cmds, defs[..i]) && ValidGroup(cmds, defs[i], LettersOf(defs[..i]))
  {
    forall k | 0 <= k <= i ensures defs[..i + 1][..k] == defs[..k] && defs[..i + 1][k] == defs[k] {}
    forall k | 0 <= k < i ensures defs[..i][..k] == defs[..k] && defs[..i][k] == defs[k] {}
  }

  // ----- joined commands -----

  datatype Reply = Ran(name: string) | Denied(name: string) | Invalid

  /** The table entry with exactly this name, or the number of commands. */
  function Exactly(cmds: seq<Cmd>, name: string): (k: nat)
    ensures k <= |cmds| && (k < |cmds| ==> cmds[k].name == name)
    ensures k == |cmds| ==> forall i | 0 <= i < |cmds| :: cmds[i].name != name
  {
    if cmds == [] then 0
    else if cmds[|cmds| - 1].name == name then |cmds| - 1
    else
      var k := Exactly(cmds[..|cmds| - 1], name);
      if k == |cmds| - 1 then |cmds| else k
  }

  function ReplyTo(cmds: seq<Cmd>, allowed: set<string>, name: string): Reply {
    var k := Exactly(cmds, name);
    if k == |cmds| then Invalid
    else if cmds[k].joinable && name in allowed then Ran(name) else Denied(name)
  }

  /** The replies to a list of words: known commands are answered the first time only, empty words not at
      all, unknown ones every time. */
  function Replies(cmds: seq<Cmd>, allowed: set<string>, words: seq<string>): seq<Reply> {
    if words == [] then []
    else
      var earlier, word := words[..|words| - 1], words[|words| - 1];
      var before := Replies(cmds, allowed, earlier);
      if word == "" || (word in earlier && Exactly(cmds, word) < |cmds|) then before
      else before + [ReplyTo(cmds, allowed, word)]
  }

  /** The names in the join buffer: the known commands seen so far. */
  ghost predicate Seen(cmds: seq<Cmd>, words: seq<string>, buffer: string, names: seq<string>) {
    && buffer == Joined(names) && AllSeparatorFree(names)
    && forall c :: c in names <==> c in words && c != "" && Exactly(cmds, c) < |cmds|
  }

  method JoinOne(cmds: seq<Cmd>, group: Option<string>, ghost allowed: set<string>, buffer: string, ghost names: seq<string>,
                 ghost earlier: seq<string>, word: string)
    returns (buffer': string, ghost names': seq<string>, reply: Option<Reply>)
    requires WellFormed(cmds) && word != "" && Seen(cmds, earlier, buffer, names)
    requires forall c | SeparatorFree(c) :: (group.None? || Contains(group.value, Needle(c))) <==> c in allowed
    ensures Seen(cmds, earlier + [word], buffer', names')
    ensures reply == if word in earlier && Exactly(cmds, word) < |cmds| then None else Some(ReplyTo(cmds, allowed, word))
  {
    buffer', names' := buffer, names;
    var i := Exactly(cmds, word);
    if i == |cmds| {
      return buffer, names, Some(Invalid);
    }
    LookupIsMembership(names, word);
    if Contains(buffer, Needle(word)) {
      return buffer, names, None;
    }
    JoinedAppend(names, word);
    buffer' := buffer + word + [SEPARATOR];
    names' := names + [word];
    if !cmds[i].joinable {
      reply := Some(Denied(word));
    } else if group.None? || Contains(group.value, Needle(word)) {
      reply := Some(Ran(word));
    } else {
      reply := Some(Denied(word));
    }
  }

  const CMDJOIN := '+'

  /** The words that a line is cut into, the empty one after a last separator included. */
  function Words(line: string): (words: seq<string>)
    ensures words != []
    decreases |line|
  {
    var n := Upto(line, CMDJOIN);
    if n == |line| then [line] else [line[..n]] + Words(line[n + 1..])
  }

  /** The loop over a joined command.  A group string of None stands for the group W, which may do everything;
      otherwise the group may do the commands in `allowed`. */
  method RunJoined(cmds: seq<Cmd>, group: Option<string>, ghost allowed: set<string>, line: string) returns (replies: seq<Reply>)
    requires WellFormed(cmds)
    requires forall c | SeparatorFree(c) :: (group.None? || Contains(group.value, Needle(c))) <==> c in allowed
    ensures replies == Replies(cmds, allowed, Words(line))
  {
    hide Replies, Words, Seen, Upto, ReplyTo, Exactly, Contains, WellFormed;
    replies := [];
    var buffer := [SEPARATOR];
    var cmdptr := Some(line);
    ghost var names: seq<string>, done: seq<string>, left := [], [], Words(line);
    NothingSeen(cmds, allowed);
    while cmdptr.Some?
      invariant Seen(cmds, done, buffer, names)
      invariant replies == Replies(cmds, allowed, done)
      invariant Words(line) == done + left
      invariant left == if cmdptr.Some? then Words(cmdptr.value) else []
      decreases if cmdptr.Some? then |cmdptr.value| + 1 else 0
    {
      var n := Upto(cmdptr.value, CMDJOIN);
      var word := cmdptr.value[..n];
      WordsStep(cmdptr.value, n);
      NextReply(cmds, allowed, done, word);
      if word != "" {
        var reply;
        buffer, names, reply := JoinOne(cmds, group, allowed, buffer, names, done, word);
        if reply.Some? {
          replies := replies + [reply.value];
        }
      } else {
        EmptyWordUnseen(cmds, done, buffer, names);
      }
      cmdptr := if n == |cmdptr.value| then None else Some(cmdptr.value[n + 1..]);
      done, left := done + [word], if cmdptr.Some? then Words(cmdptr.value) else [];
    }
    assert done + left == done;
  }

  lemma {:induction false} NothingSeen(cmds: seq<Cmd>, allowed: set<string>)
    ensures Seen(cmds, [], [SEPARATOR], []) && Replies(cmds, allowed, []) == []
  {
  }

  lemma {:induction false} WordsStep(line: string, n: nat)
    requires n == Upto(line, CMDJOIN)
    ensures n == |line| ==> Words(line) == [line[..n]]
    ensures n < |line| ==> Words(line) == [line[..n]] + Words(line[n + 1..])
  {
    hide Upto;
    assert n == |line| ==> line[..n] == line;
  }

  lemma {:induction false} NextReply(cmds: seq<Cmd>, allowed: set<string>, earlier: seq<string>, word: string)
    ensures Replies(cmds, allowed, earlier + [word]) == Replies(cmds, allowed, earlier) +
      if word == "" || (word in earlier && Exactly(cmds, word) < |cmds|) then [] else [ReplyTo(cmds, allowed, word)]
  {
    assert (earlier + [word])[..|earlier + [word]| - 1] == earlier;
  }

  lemma EmptyWordUnseen(cmds: seq<Cmd>, earlier: seq<string>, buffer: string, names: seq<string>)
    requires Seen(cmds, earlier, buffer, names)
    ensures Seen(cmds, earlier + [""], buffer, names)
  {
  }

  function TimesRun(replies: seq<Reply>, name: string): nat {
    if replies == [] then 0
    else TimesRun(replies[..|replies| - 1], name) + if replies[|replies| - 1] == Ran(name) then 1 else 0
  }

  lemma {:induction false} TimesRunAppend(replies: seq<Reply>, reply: Reply, name: string)
    ensures TimesRun(replies + [reply], name) == TimesRun(replies, name) + if reply == Ran(name) then 1 else 0
  {
    assert (replies + [reply])[..|replies + [reply]| - 1] == replies;
  }

  predicate RunsIn(cmds: seq<Cmd>, allowed: set<string>, words: seq<string>, name: string) {
    name in words && name != "" && ReplyTo(cmds, allowed, name) == Ran(name)
  }

  /** A joined command runs each command that it names, that may be joined and that the group may use exactly
      once, and no other. */
  lemma {:induction false} EachRunsOnce(cmds: seq<Cmd>, allowed: set<string>, words: seq<string>, name: string)
    ensures TimesRun(Replies(cmds, allowed, words), name) == if RunsIn(cmds, allowed, words, name) then 1 else 0
    ensures ReplyTo(cmds, allowed, name) == Ran(name)
       <==> var k := Exactly(cmds, name); k < |cmds| && cmds[k].joinable && name in allowed
  {
    hide Exactly, TimesRun;
    if words == [] {
      TimesRunOfNothing(name);
    } else {
      var earlier, word := words[..|words| - 1], words[|words| - 1];
      EachRunsOnce(cmds, allowed, earlier, name);
      TimesRunAppend(Replies(cmds, allowed, earlier), ReplyTo(cmds, allowed, word), name);
      assert name in words <==> name in earlier || name == word;
    }
  }

  lemma {:induction false} TimesRunOfNothing(name: string)
    ensures TimesRun([], name) == 0
  {
  }
}
