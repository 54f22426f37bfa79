/**
 Escaping in RPC replies and unescaping in RPC parameters (api.c).

 A C string is a sequence of characters without a zero character.
 */
module ApiText {
  import opened Options

  const NUL := '\0'

  type CString = s: string | NUL !in s witness []

  // ----- escaping -----

  /** The characters that get a backslash in front. */
  predicate Special(c: char, isJson: bool) {
    c == '\\' || (if isJson then c == '\"' else c == ',' || c == '|' || c == '=')
  }

  function EscapeChar(c: char, isJson: bool): string {
    if Special(c, isJson) then ['\\', c] else [c]
  }

  function Escape(s: string, isJson: bool): string {
    if s == [] then [] else EscapeChar(s[0], isJson) + Escape(s[1..], isJson)
  }

  function CountSpecial(s: string, isJson: bool): nat {
    if s == [] then 0 else CountSpecial(s[..|s| - 1], isJson) + if Special(s[|s| - 1], isJson) then 1 else 0
  }

  lemma {:induction false} EscapeAppend(s: string, c: char, isJson: bool)
    ensures Escape(s + [c], isJson) == Escape(s, isJson) + EscapeChar(c, isJson)
  {
    if s == [] {
      assert (s + [c])[1..] == [];
    } else {
      assert (s + [c])[1..] == s[1..] + [c];
      EscapeAppend(s[1..], c, isJson);
    }
  }

  /** The first pass counts exactly the room that the second pass needs. */
  lemma {:induction false} EscapeLength(s: string, isJson: bool)
    ensures |Escape(s, isJson)| == |s| + CountSpecial(s, isJson)
    ensures CountSpecial(s, isJson) == 0 ==> Escape(s, isJson) == s
  {
    if s != [] {
      var front := s[..|s| - 1];
      assert s == front + [s[|s| - 1]];
      EscapeLength(front, isJson);
      EscapeAppend(front, s[|s| - 1], isJson);
    }
  }

  /** Some prefix of the string needs no more room than the whole. */
  lemma {:induction false} CountPrefix(s: string, n: nat, isJson: bool)
    requires n <= |s|
    ensures CountSpecial(s[..n], isJson) <= CountSpecial(s, isJson)
  {
    if n == |s| {
      assert s[..n] == s;
    } else {
      assert s[..|s| - 1][..n] == s[..n];
      CountPrefix(s[..|s| - 1], n, isJson);
    }
  }

  method CountEscapes(str: CString, isJson: bool) returns (count: nat)
    ensures count == CountSpecial(str, isJson)
  {
    count := 0;
    for i := 0 to |str|
      invariant count == CountSpecial(str[..i], isJson)
    {
      assert str[..i + 1][..i] == str[..i];
      if Special(str[i], isJson) {
        count := count + 1;
      }
    }
    assert str[..|str|] == str;
  }

  /** Null stands for the string itself, which the code returns when nothing is to be escaped.  Otherwise
      the buffer is filled exactly, up to its terminator. */
  method EscapeString(str: CString, isJson: bool) returns (buf: array?<char>)
    ensures buf == null <==> CountSpecial(str, isJson) == 0
    ensures buf == null ==> Escape(str, isJson) == str
    ensures buf != null ==> fresh(buf) && buf[..] == Escape(str, isJson) + [NUL]
  {
    var count := CountEscapes(str, isJson);
    EscapeLength(str, isJson);
    if count == 0 {
      return null;
    }
    buf := new char[|str| + count + 1];
    var ptr := 0;
    for i := 0 to |str|
      invariant ptr == i + CountSpecial(str[..i], isJson)
      invariant ptr <= buf.Length && buf[..ptr] == Escape(str[..i], isJson)
    {
      hide Escape;
      assert str[..i + 1] == str[..i] + [str[i]] && str[..i + 1][..i] == str[..i];
      CountPrefix(str, i + 1, isJson);
      EscapeAppend(str[..i], str[i], isJson);
      ptr := PutChar(buf, ptr, str[i], isJson);
    }
    assert str[..|str|] == str;
    buf[ptr] := NUL;
    assert buf[..] == buf[..ptr] + [NUL];
  }

  method PutChar(buf: array<char>, ptr: nat, c: char, isJson: bool) returns (ptr': nat)
    requires ptr + |EscapeChar(c, isJson)| <= buf.Length
    modifies buf
    ensures ptr' == ptr + |EscapeChar(c, isJson)|
    ensures buf[..ptr'] == old(buf[..ptr]) + EscapeChar(c, isJson)
  {
    ptr' := ptr;
    if Special(c, isJson) {
      buf[ptr'] := '\\';
      ptr' := ptr' + 1;
    }
    buf[ptr'] := c;
    ptr' := ptr' + 1;
  }

  // ----- unescaping -----

  /** What was copied, what is left behind the character that ended it, and that character. */
  datatype Piece = Piece(text: string, rest: string, end: Option<char>)

  /** Reads up to a character that ends it, or the end of the string; a backslash makes the next character
      an ordinary one. */
  function Scan(ends: set<char>, s: string): (p: Piece)
    ensures p.end.None? ==> p.rest == []
    ensures |p.text| + |p.rest| + (if p.end.Some? then 1 else 0) <= |s|
  {
    if s == [] then Piece([], [], None)
    else if s[0] in ends then Piece([], s[1..], Some(s[0]))
    else if s[0] == '\\' && |s| > 1 then
      var p := Scan(ends, s[2..]);
      p.(text := [s[1]] + p.text)
    else
      var p := Scan(ends, s[1..]);
      p.(text := [s[0]] + p.text)
  }

  /** The end characters that escaping for text protects. */
  predicate Protected(ends: set<char>) {
    '\\' !in ends && forall c | c in ends :: Special(c, false)
  }

  lemma {:induction false} ScanEscapedChar(ends: set<char>, c: char, more: string)
    requires Protected(ends)
    ensures Scan(ends, EscapeChar(c, false) + more) == var p := Scan(ends, more); p.(text := [c] + p.text)
  {
    var first := EscapeChar(c, false);
    if Special(c, false) {
      assert (first + more)[2..] == more;
    } else {
      assert (first + more)[1..] == more;
    }
  }

  lemma {:induction false} ScanEscaped(ends: set<char>, s: string, tail: string)
    requires Protected(ends)
    ensures Scan(ends, Escape(s, false) + tail) == var p := Scan(ends, tail); p.(text := s + p.text)
  {
    hide Scan;
    if s == [] {
      assert Escape(s, false) + tail == tail;
    } else {
      var more := Escape(s[1..], false) + tail;
      assert Escape(s, false) + tail == EscapeChar(s[0], false) + more;
      ScanEscapedChar(ends, s[0], more);
      ScanEscaped(ends, s[1..], tail);
      assert s == [s[0]] + s[1..];
    }
  }

  /** An escaped string in front of a separator is read back as it was, for every string. */
  lemma {:induction false} EscapeRoundTrip(ends: set<char>, sep: char, s: string, rest: string)
    requires Protected(ends) && sep in ends
    ensures Scan(ends, Escape(s, false) + [sep] + rest) == Piece(s, rest, Some(sep))
  {
    var tail := [sep] + rest;
    assert Escape(s, false) + [sep] + rest == Escape(s, false) + tail && tail[1..] == rest;
    ScanEscaped(ends, s, tail);
    assert s + [] == s;
  }

  lemma {:induction false} EscapeRoundTripAtEnd(ends: set<char>, s: string)
    requires Protected(ends)
    ensures Scan(ends, Escape(s, false)) == Piece(s, [], None)
  {
    ScanEscaped(ends, s, []);
    assert Escape(s, false) + [] == Escape(s, false) && s + [] == s;
  }

  lemma {:induction false} ScanJsonChar(c: char, more: string)
    requires c != ','
    ensures Scan({','}, EscapeChar(c, true) + more) == var p := Scan({','}, more); p.(text := [c] + p.text)
  {
    var first := EscapeChar(c, true);
    if Special(c, true) {
      assert (first + more)[2..] == more;
    } else {
      assert (first + more)[1..] == more;
    }
  }

  /** What reading up to a comma makes of an escaped string with a comma behind it. */
  function ReadJson(s: string, rest: string): Piece {
    Scan({','}, Escape(s, true) + ([','] + rest))
  }

  lemma ReadJsonStep(s: string, rest: string)
    requires s != []
    ensures if s[0] == ',' then ReadJson(s, rest).text == []
            else ReadJson(s, rest) == var p := ReadJson(s[1..], rest); p.(text := [s[0]] + p.text)
  {
    var more := Escape(s[1..], true) + ([','] + rest);
    assert Escape(s, true) + ([','] + rest) == EscapeChar(s[0], true) + more;
    if s[0] != ',' {
      ScanJsonChar(s[0], more);
    }
  }

  /** Escaping for JSON does not protect commas: it survives reading up to a comma exactly when the string
      has none. */
  lemma {:induction false} JsonEscapeReadAsText(s: string, rest: string)
    ensures ReadJson(s, rest) == Piece(s, rest, Some(',')) <==> ',' !in s
  {
    if s == [] {
      assert Escape(s, true) + ([','] + rest) == [','] + rest && ([','] + rest)[1..] == rest;
    } else {
      hide ReadJson;
      JsonEscapeReadAsText(s[1..], rest);
      ReadJsonStep(s, rest);
      var p := ReadJson(s[1..], rest);
      assert s == [s[0]] + s[1..] && ([s[0]] + p.text)[1..] == p.text;
    }
  }

  // ----- pool details -----

  /** copyadvanceafter: copies a piece and a terminator behind what the buffer holds. */
  method CopyAdvanceAfter(ch: char, param: CString, buf: string) returns (param': CString, buf': string)
    ensures var p := Scan({ch}, param);
      param' == p.rest && buf' == buf + p.text + [NUL] && Holds(buf', |buf|, p.text) && buf <= buf'
  {
    hide Scan;
    var src := 0;
    buf' := buf;
    assert param[0..] == param;
    while src < |param| && param[src] != ch
      invariant 0 <= src <= |param|
      invariant var p, q := Scan({ch}, param[src..]), Scan({ch}, param);
                q.rest == p.rest && q.end == p.end && buf + q.text == buf' + p.text
    {
      ghost var was := src;
      ScanNext(ch, param[was..]);
      if param[src] == '\\' && src + 1 < |param| {
        src := src + 1;
      }
      assert param[was..][src + 1 - was..] == param[src + 1..];
      buf' := buf' + [param[src]];
      src := src + 1;
    }
    ScanStops(ch, param[src..]);
    assert src < |param| ==> param[src..][1..] == param[src + 1..];
    param' := if src < |param| then param[src + 1..] else [];
    buf' := buf' + [NUL];
  }

  lemma {:induction false} ScanNext(ch: char, s: string)
    requires s != [] && s[0] != ch
    ensures var skip := if s[0] == '\\' && |s| > 1 then 1 else 0;
      var p := Scan({ch}, s[skip + 1..]);
      Scan({ch}, s) == p.(text := [s[skip]] + p.text)
  {
  }

  lemma {:induction false} ScanStops(ch: char, s: string)
    requires s != [] ==> s[0] == ch
    ensures Scan({ch}, s).text == [] && Scan({ch}, s).rest == if s == [] then [] else s[1..]
  {
  }

  /** The string that begins at an offset of a buffer. */
  function StringAt(buf: string, at: nat): string
    decreases |buf| - at
  {
    if at >= |buf| || buf[at] == NUL then [] else [buf[at]] + StringAt(buf, at + 1)
  }

  /** A buffer holds a string and its terminator at an offset. */
  predicate Holds(buf: string, at: nat, text: string) {
    at + |text| < |buf| && buf[at..at + |text|] == text && buf[at + |text|] == NUL
  }

  lemma {:induction false} StringHeld(buf: string, at: nat, text: string)
    requires Holds(buf, at, text) && NUL !in text
    ensures StringAt(buf, at) == text
    decreases |text|
  {
    if text != [] {
      assert buf[at] == text[0] && buf[at + 1..at + |text|] == text[1..];
      StringHeld(buf, at + 1, text[1..]);
    }
  }

  /** A string stays where it is while more is written behind it. */
  lemma {:induction false} StringKept(buf: string, at: nat, text: string, longer: string)
    requires Holds(buf, at, text) && NUL !in text && buf <= longer
    ensures StringAt(longer, at) == text
  {
    assert longer[at..at + |text|] == buf[at..at + |text|];
    StringHeld(longer, at, text);
  }

  datatype Details = Details(url: string, user: string, pass: string, goal: Option<string>)

  function PoolDetails(param: string): Option<Details> {
    var url := Scan({','}, param);
    var user := Scan({','}, url.rest);
    var pass := Scan({','}, user.rest);
    if url.rest == [] || user.rest == [] then None
    else Some(Details(url.text, user.text, pass.text, if pass.rest == [] then None else Some(Scan({','}, pass.rest).text)))
  }

  /** Everything the code writes to its buffer when no field is missing: always four strings. */
  function Written(param: string): string {
    var url := Scan({','}, param);
    var user := Scan({','}, url.rest);
    var pass := Scan({','}, user.rest);
    url.text + [NUL] + user.text + [NUL] + pass.text + [NUL] + Scan({','}, pass.rest).text + [NUL]
  }

  lemma {:induction false} ScanKeepsNulOut(ends: set<char>, s: string)
    requires NUL !in s
    ensures NUL !in Scan(ends, s).text && NUL !in Scan(ends, s).rest
    decreases |s|
  {
    if s != [] && s[0] !in ends {
      ScanKeepsNulOut(ends, if s[0] == '\\' && |s| > 1 then s[2..] else s[1..]);
    }
  }

  /** The pointers that pooldetails sets, as offsets into its buffer; goal stays -1 when there is none. */
  method ReadPoolDetails(param: CString) returns (ok: bool, buf: string, url: nat, user: nat, pass: nat, goal: int)
    ensures ok <==> PoolDetails(param).Some?
    ensures ok ==> buf == Written(param) && goal >= -1
    ensures ok ==> PoolDetails(param) == Some(Details(StringAt(buf, url), StringAt(buf, user), StringAt(buf, pass),
                                                      if goal == -1 then None else Some(StringAt(buf, goal))))
  {
    hide Scan, StringAt, Holds;
    var left := param;
    ok, buf, url, user, pass, goal := false, [], 0, 0, 0, -1;
    NoNuls(param);
    ghost var p1 := Scan({','}, left);
    left, buf := CopyAdvanceAfter(',', left, buf);
    ghost var buf1 := buf;
    if left == [] {
      return;
    }
    user := |buf|;
    ghost var p2 := Scan({','}, left);
    left, buf := CopyAdvanceAfter(',', left, buf);
    ghost var buf2 := buf;
    if left == [] {
      return;
    }
    pass := |buf|;
    ghost var p3 := Scan({','}, left);
    left, buf := CopyAdvanceAfter(',', left, buf);
    if left != [] {
      goal := |buf|;
    }
    ghost var p4, at := Scan({','}, left), |buf|;
    ghost var buf3 := buf;
    left, buf := CopyAdvanceAfter(',', left, buf);
    ok := true;
    StringKept(buf1, url, p1.text, buf);
    StringKept(buf2, user, p2.text, buf);
    StringKept(buf3, pass, p3.text, buf);
    StringKept(buf, at, p4.text, buf);
  }

  lemma {:induction false} NoNuls(param: string)
    requires NUL !in param
    ensures var url := Scan({','}, param);
      var user := Scan({','}, url.rest);
      var pass := Scan({','}, user.rest);
      NUL !in url.text && NUL !in user.text && NUL !in pass.text && NUL !in Scan({','}, pass.rest).text
  {
    var url := Scan({','}, param);
    var user := Scan({','}, url.rest);
    ScanKeepsNulOut({','}, param);
    ScanKeepsNulOut({','}, url.rest);
    ScanKeepsNulOut({','}, user.rest);
    ScanKeepsNulOut({','}, Scan({','}, user.rest).rest);
  }

  /** Escaped details are recovered, for all strings; only an empty password needs a goal behind it. */
  lemma {:induction false} DetailsRoundTrip(url: string, user: string, pass: string)
    ensures PoolDetails(Escape(url, false) + [','] + Escape(user, false) + [','] + Escape(pass, false))
         == if pass == [] then None else Some(Details(url, user, pass, None))
  {
    hide Scan, Escape;
    var u, v, p := Escape(url, false), Escape(user, false), Escape(pass, false);
    assert u + [','] + v + [','] + p == u + [','] + (v + [','] + p);
    EscapeRoundTrip({','}, ',', url, v + [','] + p);
    EscapeRoundTrip({','}, ',', user, p);
    EscapeRoundTripAtEnd({','}, pass);
    NothingEscapesToNothing(pass);
    ScanNothing();
  }

  lemma ScanNothing()
    ensures Scan({','}, []) == Piece([], [], None)
  {
  }

  lemma {:induction false} DetailsWithGoalRoundTrip(url: string, user: string, pass: string, goal: string)
    ensures PoolDetails(Escape(url, false) + [','] + Escape(user, false) + [','] + Escape(pass, false) + [','] + Escape(goal, false))
         == Some(Details(url, user, pass, if goal == [] then None else Some(goal)))
  {
    hide Scan, Escape;
    var u, v, p, g := Escape(url, false), Escape(user, false), Escape(pass, false), Escape(goal, false);
    EscapeRoundTrip({','}, ',', url, v + [','] + (p + [','] + g));
    EscapeRoundTrip({','}, ',', user, p + [','] + g);
    EscapeRoundTrip({','}, ',', pass, g);
    EscapeRoundTripAtEnd({','}, goal);
    NothingEscapesToNothing(goal);
    CommasAssociate(u, v, p, g);
  }

  lemma {:induction false} NothingEscapesToNothing(s: string)
    ensures Escape(s, false) == [] <==> s == []
  {
    EscapeLength(s, false);
  }

  lemma CommasAssociate(u: string, v: string, p: string, g: string)
    ensures u + [','] + v + [','] + p + [','] + g == u + [','] + (v + [','] + (p + [','] + g))
  {
  }

  // ----- room for what is written -----

  /** No backslash has a character behind it. */
  predicate NothingEscaped(s: string) {
    forall i | 0 <= i < |s| - 1 :: s[i] != '\\'
  }

  function Commas(s: string): nat {
    if s == [] then 0 else (if s[0] == ',' then 1 else 0) + Commas(s[1..])
  }

  /** How much of a string its piece, the character that ended the piece, and the rest account for. */
  function Accounted(s: string): nat {
    var p := Scan({','}, s);
    |p.text| + |p.rest| + if p.end.Some? then 1 else 0
  }

  lemma EscapedOrNot(s: string)
    requires s != []
    ensures NothingEscaped(s) <==> (|s| == 1 || s[0] != '\\') && NothingEscaped(s[1..])
  {
    if NothingEscaped(s) {
      forall i | 0 <= i < |s[1..]| - 1 ensures s[1..][i] != '\\' {
        assert s[i + 1] != '\\';
      }
    }
    if (|s| == 1 || s[0] != '\\') && NothingEscaped(s[1..]) {
      forall i | 0 <= i < |s| - 1 ensures s[i] != '\\' {
        assert i > 0 ==> s[i] == s[1..][i - 1];
      }
    }
  }

  /** Reading a piece accounts for the whole string if and only if it meets no backslash that has a character
      behind it. */
  lemma {:induction false} PieceAccounts(s: string)
    ensures NothingEscaped(s) <==> Accounted(s) == |s| && NothingEscaped(Scan({','}, s).rest)
    decreases |s|
  {
    if s != [] {
      EscapedOrNot(s);
      if s[0] != ',' && !(s[0] == '\\' && |s| > 1) {
        PieceAccounts(s[1..]);
      }
    }
  }

  /** Without such a backslash, a piece ends at the first comma. */
  lemma {:induction false} PieceTakesOneComma(s: string)
    requires NothingEscaped(s)
    ensures Commas(s) == Commas(Scan({','}, s).rest) + if Scan({','}, s).end.Some? then 1 else 0
    decreases |s|
  {
    if s != [] && s[0] != ',' {
      EscapedOrNot(s);
      PieceTakesOneComma(s[1..]);
    }
  }

  /** The buffer has room for the parameter and a terminator.  What is written overflows it, by one character,
      if and only if the parameter has no goal and escapes nothing: exactly two commas, and no backslash
      except possibly as its last character.  The fourth string is written although there is no goal. */
  lemma {:induction false} WrittenOverflows(param: string)
    requires PoolDetails(param).Some?
    ensures |Written(param)| > |param| + 1 <==> Commas(param) == 2 && NothingEscaped(param)
    ensures |Written(param)| <= |param| + 2
  {
    hide Commas, NothingEscaped;
    var url := Scan({','}, param);
    var user := Scan({','}, url.rest);
    var pass := Scan({','}, user.rest);
    PieceAccounts(param);
    PieceAccounts(url.rest);
    PieceAccounts(user.rest);
    if NothingEscaped(param) {
      PieceTakesOneComma(param);
      PieceTakesOneComma(url.rest);
      PieceTakesOneComma(user.rest);
    }
    NothingLeft();
  }

  lemma NothingLeft()
    ensures NothingEscaped([]) && Commas([]) == 0
  {
  }

  /** Such a parameter: seven characters are written to a buffer of six. */
  lemma SevenIntoSix()
    ensures PoolDetails("a,b,c") == Some(Details("a", "b", "c", None))
    ensures Written("a,b,c") == ['a', NUL, 'b', NUL, 'c', NUL, NUL] && |Written("a,b,c")| == |"a,b,c"| + 2
  {
    var s := "a,b,c";
    assert s[1..] == ",b,c" && s[1..][1..] == "b,c";
    assert Scan({','}, s) == Piece("a", "b,c", Some(','));
    var t := "b,c";
    assert t[1..] == ",c" && t[1..][1..] == "c";
    assert Scan({','}, t) == Piece("b", "c", Some(','));
    assert "c"[1..] == "";
    assert Scan({','}, "c") == Piece("c", "", None);
  }
}
