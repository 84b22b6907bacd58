/** The text operations the dispatcher performs on one raw line: the
    character searches of std::string, the XOR checksum fold, stripping of
    the line-number prefix and of the comment suffix, and the split of a
    body into command tokens.  A `string` stands for a std::string, one
    `char` per byte. */
module GcodeText {

  datatype Option<T> = None | Some(value: T)

  /** The letters that begin a command token. */
  const CommandLetters: set<char> := {'G', 'M', 'T'}
  /** The characters skipped as the line-number prefix of a numbered line. */
  const LineNumberChars: set<char> := {'N', '0', '1', '2', '3', '4', '5', '6', '7', '8', '9', '.', ',', '-', ' '}
  /** The characters that open a comment. */
  const CommentChars: set<char> := {';', '('}

  /** The first character of a line; an empty std::string yields its
      terminating NUL. */
  function FirstChar(s: string): (c: char)
    ensures s != [] ==> c == s[0]
    ensures s == [] ==> c == '\0'
  {
    if s == [] then '\0' else s[0]
  }

  /** Position of the first character at or after `from` whose membership in
      `chars` equals `member`: find_first_of when `member` holds,
      find_first_not_of otherwise.  None stands for npos. */
  function FindFirst(s: string, chars: set<char>, member: bool, from: nat): (r: Option<nat>)
    decreases |s| - from
    ensures r.Some? ==> from <= r.value < |s|
  {
    if from >= |s| then None
    else if (s[from] in chars) == member then Some(from)
    else FindFirst(s, chars, member, from + 1)
  }

  /** FindFirst finds the first match at or after `from`, and npos means
      there is none. */
  lemma {:induction false} FindFirstSpec(s: string, chars: set<char>, member: bool, from: nat)
    decreases |s| - from
    ensures var r := FindFirst(s, chars, member, from);
      && (r.Some? ==> (s[r.value] in chars) == member)
      && (r.Some? ==> forall j :: from <= j < r.value ==> (s[j] in chars) != member)
      && (r.None? ==> forall j :: from <= j < |s| ==> (s[j] in chars) != member)
  {
    if from < |s| && (s[from] in chars) != member {
      FindFirstSpec(s, chars, member, from + 1);
    }
  }

  predicate HasPrefix(s: string, p: string) {
    |p| <= |s| && s[..|p|] == p
  }

  /** The part of a line before its first `*` (all of it when there is none). */
  function BeforeStar(line: string): (r: string)
    ensures HasPrefix(line, r)
  {
    match FindFirst(line, {'*'}, true, 0)
    case None => line
    case Some(i) => line[..i]
  }

  /** BeforeStar stops at the first `*`, or takes the whole line when it
      has none. */
  lemma BeforeStarSpec(line: string)
    ensures '*' !in BeforeStar(line)
    ensures BeforeStar(line) == line || line[|BeforeStar(line)|] == '*'
    ensures '*' !in line ==> BeforeStar(line) == line
  {
    FindFirstSpec(line, {'*'}, true, 0);
    var r := BeforeStar(line);
    assert forall j :: 0 <= j < |r| ==> r[j] == line[j];
  }

  // ----- checksum -----

  /** The low eight bits of a character, which is all that survives the
      final `& 0xff` of the fold. */
  function Byte(c: char): bv8 {
    ((c as int) % 256) as bv8
  }

  /** XOR of the bytes of `s`, folded from the left. */
  function XorFold(s: string): bv8 {
    if s == [] then 0 else XorFold(s[..|s| - 1]) ^ Byte(s[|s| - 1])
  }

  lemma {:induction false} XorFoldAppend(a: string, b: string)
    ensures XorFold(a + b) == XorFold(a) ^ XorFold(b)
    decreases |b|
  {
    if b == [] {
      assert a + b == a;
    } else {
      var b' := b[..|b| - 1];
      assert (a + b)[..|a + b| - 1] == a + b';
      XorFoldAppend(a, b');
    }
  }

  /** The checksum detects every change of a single byte. */
  lemma SingleByteChangeDetected(a: string, b: string, i: nat)
    requires |a| == |b| && i < |a|
    requires Byte(a[i]) != Byte(b[i])
    requires forall j :: 0 <= j < |a| && j != i ==> a[j] == b[j]
    ensures XorFold(a) != XorFold(b)
  {
    assert a == a[..i] + [a[i]] + a[i + 1..];
    assert b == b[..i] + [b[i]] + b[i + 1..];
    assert a[..i] == b[..i];
    assert a[i + 1..] == b[i + 1..];
    XorFoldAppend(a[..i] + [a[i]], a[i + 1..]);
    XorFoldAppend(a[..i], [a[i]]);
    XorFoldAppend(b[..i] + [b[i]], b[i + 1..]);
    XorFoldAppend(b[..i], [b[i]]);
    assert XorFold([a[i]]) == Byte(a[i]) by { assert [a[i]][..0] == []; }
    assert XorFold([b[i]]) == Byte(b[i]) by { assert [b[i]][..0] == []; }
  }

  /** The checksum loop of a numbered line: folds the bytes of the
      `*`-free prefix one at a time, masks to eight bits and subtracts the
      transmitted value, so that zero means the line is intact. */
  method ComputeChecksum(prefix: string, transmitted: int) returns (cs: int)
    requires '*' !in prefix
    ensures cs == XorFold(prefix) as int - transmitted
    ensures cs == 0 <==> XorFold(prefix) as int == transmitted
  {
    var acc: bv8 := 0;
    var i := 0;
    while i < |prefix| && prefix[i] != '*'
      invariant 0 <= i <= |prefix|
      invariant acc == XorFold(prefix[..i])
    {
      assert prefix[..i + 1][..i] == prefix[..i];
      acc := acc ^ Byte(prefix[i]);
      i := i + 1;
    }
    assert prefix[..i] == prefix;
    cs := acc as int - transmitted;
  }

  // ----- stripping -----

  /** A numbered line carries something after its line-number prefix. */
  predicate HasCommandText(s: string) {
    exists i :: 0 <= i < |s| && s[i] !in LineNumberChars
  }

  /** Drops the leading run of line-number characters. */
  function StripLineNumber(s: string): (r: string)
    requires HasCommandText(s)
    ensures |r| <= |s|
  {
    match FindFirst(s, LineNumberChars, false, 0)
    case Some(i) => s[i..]
    case None => FindFirstSpec(s, LineNumberChars, false, 0); assert false; s
  }

  /** The stripped prefix is all line-number characters, and what is left
      starts with the first character that is not one. */
  lemma StripLineNumberSpec(s: string)
    requires HasCommandText(s)
    ensures var r := StripLineNumber(s);
      && r != [] && r[0] !in LineNumberChars
      && s == s[..|s| - |r|] + r
      && (forall j :: 0 <= j < |s| - |r| ==> s[j] in LineNumberChars)
  {
    FindFirstSpec(s, LineNumberChars, false, 0);
  }

  /** Cuts the line at its first `;` or `(`. */
  function StripComment(s: string): (r: string)
    ensures HasPrefix(s, r)
  {
    match FindFirst(s, CommentChars, true, 0)
    case None => s
    case Some(i) => s[..i]
  }

  /** What is left holds no comment character, and it ends where the first
      one was. */
  lemma StripCommentSpec(s: string)
    ensures var r := StripComment(s);
      && (forall j :: 0 <= j < |r| ==> r[j] !in CommentChars)
      && (r == s || s[|r|] in CommentChars)
  {
    FindFirstSpec(s, CommentChars, true, 0);
    var r := StripComment(s);
    assert forall j :: 0 <= j < |r| ==> r[j] == s[j];
  }

  // ----- splitting -----

  /** Some command letter occurs in `t`. */
  predicate HasCommandLetter(t: string) {
    exists j :: 0 <= j < |t| && t[j] in CommandLetters
  }

  /** At most one command letter occurs in `t`. */
  predicate AtMostOneCommandLetter(t: string) {
    forall i, j :: 0 <= i < j < |t| && t[i] in CommandLetters ==> t[j] !in CommandLetters
  }

  /** Length of the first token of a non-empty remainder: everything up to
      the first command letter strictly after the first one.  When the
      remainder holds no command letter the first search yields npos and
      npos + 1 wraps to 0, so the second search finds nothing either and the
      whole remainder is one token. */
  function TokenEnd(s: string): (n: nat)
    requires s != []
    ensures 0 < n <= |s|
  {
    var first := FindFirst(s, CommandLetters, true, 0);
    var from := if first.None? then 0 else first.value + 1;
    match FindFirst(s, CommandLetters, true, from)
    case None => |s|
    case Some(i) => i
  }

  /** The first token holds the remainder's first command letter and no
      other, the remainder after it starts with the next one, and a
      remainder without command letters is a single token.  Any text before
      the first command letter thus stays with it. */
  lemma TokenEndSpec(s: string)
    requires s != []
    ensures var n := TokenEnd(s);
      && AtMostOneCommandLetter(s[..n])
      && (HasCommandLetter(s) ==> HasCommandLetter(s[..n]))
      && (n < |s| ==> s[n] in CommandLetters)
      && (!HasCommandLetter(s) ==> n == |s|)
  {
    var first := FindFirst(s, CommandLetters, true, 0);
    FindFirstSpec(s, CommandLetters, true, 0);
    var from := if first.None? then 0 else first.value + 1;
    FindFirstSpec(s, CommandLetters, true, from);
    var n := TokenEnd(s);
    assert forall j :: 0 <= j < n ==> s[..n][j] == s[j];
    if first.Some? {
      assert s[..n][first.value] in CommandLetters;
    }
  }

  /** Concatenation of a sequence of strings. */
  function Concat(ts: seq<string>): string {
    if ts == [] then [] else ts[0] + Concat(ts[1..])
  }

  /** The command tokens of a body, in order: the split loop run to the end. */
  function SplitCommands(s: string): (ts: seq<string>)
    decreases |s|
    ensures s == [] <==> ts == []
  {
    if s == [] then [] else [s[..TokenEnd(s)]] + SplitCommands(s[TokenEnd(s)..])
  }

  /** The tokens put back together, in order, give the body. */
  lemma {:induction false} SplitCommandsConcat(s: string)
    decreases |s|
    ensures Concat(SplitCommands(s)) == s
  {
    if s != [] {
      var n := TokenEnd(s);
      var head, tail := s[..n], s[n..];
      assert head + tail == s;
      SplitCommandsHead(s);
      SplitCommandsConcat(tail);
      ConcatFirst(head, SplitCommands(tail));
    }
  }

  lemma ConcatFirst(t: string, ts: seq<string>)
    ensures Concat([t] + ts) == t + Concat(ts)
  {
    assert ([t] + ts)[0] == t && ([t] + ts)[1..] == ts;
  }

  /** Each token is non-empty and holds at most one command letter, and
      every token after the first starts with one.  Together with the
      tokens concatenating back to the body and each holding a command
      letter when the body does, this fixes the split. */
  predicate WellSplit(ts: seq<string>) {
    && (forall k :: 0 <= k < |ts| ==> ts[k] != [] && AtMostOneCommandLetter(ts[k]))
    && (forall k :: 0 < k < |ts| ==> ts[k][0] in CommandLetters)
  }

  lemma {:induction false} SplitCommandsTokens(s: string)
    decreases |s|
    ensures WellSplit(SplitCommands(s))
    ensures HasCommandLetter(s) ==>
      forall k :: 0 <= k < |SplitCommands(s)| ==> HasCommandLetter(SplitCommands(s)[k])
  {
    if s != [] {
      var n := TokenEnd(s);
      TokenEndSpec(s);
      SplitCommandsTokens(s[n..]);
      var rest := SplitCommands(s[n..]);
      var ts := SplitCommands(s);
      assert ts == [s[..n]] + rest;
      forall k | 0 <= k < |ts|
        ensures ts[k] != [] && AtMostOneCommandLetter(ts[k])
        ensures k > 0 ==> ts[k][0] in CommandLetters
        ensures HasCommandLetter(s) ==> HasCommandLetter(ts[k])
      {
        if k == 0 {
          assert ts[0] == s[..n];
        } else {
          assert ts[k] == rest[k - 1];
          if k == 1 {
            assert rest[0] == s[n..][..TokenEnd(s[n..])];
            assert rest[0][0] == s[n];
          }
          assert ts[k][0] in CommandLetters;
        }
      }
    }
  }

  /** A non-empty body without command letters is a single token. */
  lemma SplitCommandsWithoutLetters(s: string)
    requires s != [] && forall j :: 0 <= j < |s| ==> s[j] !in CommandLetters
    ensures SplitCommands(s) == [s]
  {
    TokenEndSpec(s);
    assert TokenEnd(s) == |s|;
    assert s[..|s|] == s && s[|s|..] == [];
  }

  /** The first token a non-empty remainder yields. */
  lemma SplitCommandsHead(s: string)
    requires s != []
    ensures SplitCommands(s) == [s[..TokenEnd(s)]] + SplitCommands(s[TokenEnd(s)..])
  {
  }

  /** A search that a known position answers. */
  lemma {:induction false} FindFirstAt(s: string, chars: set<char>, from: nat, i: nat)
    requires from <= i < |s| && s[i] in chars
    requires forall j :: from <= j < i ==> s[j] !in chars
    decreases i - from
    ensures FindFirst(s, chars, true, from) == Some(i)
  {
    if from < i {
      FindFirstAt(s, chars, from + 1, i);
    }
  }

  /** Splitting a line with two commands. */
  lemma SplitTwoCommands()
    ensures SplitCommands("G1 X1 M104 S200") == ["G1 X1 ", "M104 S200"]
  {
    var s := "G1 X1 M104 S200";
    var r := "M104 S200";
    FirstTokenOfTwo();
    SplitCommandsHead(s);
    LastToken();
    SplitCommandsHead(r);
    assert r[TokenEnd(r)..] == [];
  }

  /** Text before the first command letter stays with that command. */
  lemma SplitLeadingText()
    ensures SplitCommands("X G1") == ["X G1"]
  {
    var s := "X G1";
    FindFirstAt(s, CommandLetters, 0, 2);
    assert FindFirst(s, CommandLetters, true, 3) == None;
    assert TokenEnd(s) == 4;
    SplitCommandsHead(s);
    assert s[..4] == s && s[4..] == [];
  }

  lemma FirstTokenOfTwo()
    ensures TokenEnd("G1 X1 M104 S200") == 6
    ensures "G1 X1 M104 S200"[..6] == "G1 X1 " && "G1 X1 M104 S200"[6..] == "M104 S200"
  {
    var s := "G1 X1 M104 S200";
    FindFirstAt(s, CommandLetters, 0, 0);
    FindFirstAt(s, CommandLetters, 1, 6);
  }

  lemma LastToken()
    ensures TokenEnd("M104 S200") == 9
    ensures "M104 S200"[..9] == "M104 S200"
  {
    var r := "M104 S200";
    FindFirstAt(r, CommandLetters, 0, 0);
    assert FindFirst(r, CommandLetters, true, 1) == None;
  }
}
