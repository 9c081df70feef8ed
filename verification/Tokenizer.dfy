/** Splitting of the "args", "requires" and "after" keys (app/libsystemd/src/serviceapi.c:1559-1641, 1738-1791).

    The C code cuts a writable copy into tokens by overwriting the separator after each one with a terminator, and for
    argv it counts the tokens in a pass of their own first. */
module Tokenizer {
  import opened Wrappers

  const ARG_SEPARATORS: set<char> := {' ', '\t'}
  const NAME_SEPARATORS: set<char> := {' ', '\t', ','}

  ghost predicate AllIn(s: string, seps: set<char>) {
    forall i :: 0 <= i < |s| ==> s[i] in seps
  }

  ghost predicate NoneIn(s: string, seps: set<char>) {
    forall i :: 0 <= i < |s| ==> s[i] !in seps
  }

  function TokenLength(s: string, seps: set<char>): (n: nat)
    ensures n <= |s|
    ensures NoneIn(s[..n], seps)
    ensures n < |s| ==> s[n] in seps
  {
    if s == "" || s[0] in seps then 0
    else
      var n := TokenLength(s[1..], seps);
      assert s[..1 + n] == [s[0]] + s[1..][..n];
      1 + n
  }

  /** The maximal separator-free runs of s. */
  function Tokens(s: string, seps: set<char>): seq<string> {
    if s == "" then []
    else if s[0] in seps then Tokens(s[1..], seps)
    else
      var n := TokenLength(s, seps);
      [s[..n]] + Tokens(s[n..], seps)
  }

  // ---------------------------------------------------------------------------------------------------------------
  // Tokens undoes weaving, and every text is a weaving of its tokens
  // ---------------------------------------------------------------------------------------------------------------

  /** Tokens separated by runs of separators; only the runs at both ends may be empty. */
  ghost predicate Spaced(gaps: seq<string>, tokens: seq<string>, seps: set<char>) {
    && |gaps| == |tokens| + 1
    && (forall k :: 0 <= k < |gaps| ==> AllIn(gaps[k], seps))
    && (forall k :: 0 < k < |tokens| ==> gaps[k] != "")
    && (forall k :: 0 <= k < |tokens| ==> tokens[k] != "" && NoneIn(tokens[k], seps))
  }

  function Weave(gaps: seq<string>, tokens: seq<string>): string
    requires |gaps| == |tokens| + 1
  {
    if tokens == [] then gaps[0] else gaps[0] + tokens[0] + Weave(gaps[1..], tokens[1..])
  }

  lemma {:induction false} TokensSkipGap(gap: string, s: string, seps: set<char>)
    requires AllIn(gap, seps)
    ensures Tokens(gap + s, seps) == Tokens(s, seps)
  {
    if gap == "" {
      assert gap + s == s;
    } else {
      assert (gap + s)[0] == gap[0] && (gap + s)[1..] == gap[1..] + s;
      TokensSkipGap(gap[1..], s, seps);
    }
  }

  lemma {:induction false} TokenLengthIs(token: string, s: string, seps: set<char>)
    requires NoneIn(token, seps) && (s == "" || s[0] in seps)
    ensures TokenLength(token + s, seps) == |token|
  {
    if token == "" {
      assert token + s == s;
    } else {
      assert (token + s)[0] == token[0] && (token + s)[1..] == token[1..] + s;
      TokenLengthIs(token[1..], s, seps);
    }
  }

  lemma TokensTakeToken(token: string, s: string, seps: set<char>)
    requires token != "" && NoneIn(token, seps) && (s == "" || s[0] in seps)
    ensures Tokens(token + s, seps) == [token] + Tokens(s, seps)
  {
    TokenLengthIs(token, s, seps);
    assert (token + s)[..|token|] == token && (token + s)[|token|..] == s;
    assert (token + s)[0] == token[0];
  }

  /** What follows a token in a spacing is nothing or starts with a separator. */
  lemma SpacedTail(gaps: seq<string>, tokens: seq<string>, seps: set<char>)
    requires Spaced(gaps, tokens, seps) && tokens != []
    ensures Spaced(gaps[1..], tokens[1..], seps)
    ensures var rest := Weave(gaps[1..], tokens[1..]); rest == "" || rest[0] in seps
  {
    var rest := Weave(gaps[1..], tokens[1..]);
    assert gaps[1] <= rest;
    if gaps[1] != "" {
      assert rest[0] == gaps[1][0];
    } else {
      assert |tokens| == 1;
    }
  }

  /** Any tokens, however they are spaced, are found again. */
  lemma {:induction false} TokensOfWeave(gaps: seq<string>, tokens: seq<string>, seps: set<char>)
    requires Spaced(gaps, tokens, seps)
    ensures Tokens(Weave(gaps, tokens), seps) == tokens
  {
    if tokens == [] {
      TokensSkipGap(gaps[0], "", seps);
      assert gaps[0] + "" == gaps[0];
    } else {
      var rest := Weave(gaps[1..], tokens[1..]);
      SpacedTail(gaps, tokens, seps);
      TokensOfWeave(gaps[1..], tokens[1..], seps);
      TokensTakeToken(tokens[0], rest, seps);
      TokensSkipGap(gaps[0], tokens[0] + rest, seps);
      assert gaps[0] + tokens[0] + rest == gaps[0] + (tokens[0] + rest);
      assert [tokens[0]] + tokens[1..] == tokens;
    }
  }

  /** Arguments are separated by blanks and tabs and by nothing else; names also by commas. */
  lemma SeparatorsAre(gaps: seq<string>, tokens: seq<string>)
    ensures Spaced(gaps, tokens, {' ', '\t'}) ==> Tokens(Weave(gaps, tokens), ARG_SEPARATORS) == tokens
    ensures Spaced(gaps, tokens, {' ', '\t', ','}) ==> Tokens(Weave(gaps, tokens), NAME_SEPARATORS) == tokens
  {
    if Spaced(gaps, tokens, {' ', '\t'}) {
      TokensOfWeave(gaps, tokens, ARG_SEPARATORS);
    }
    if Spaced(gaps, tokens, {' ', '\t', ','}) {
      TokensOfWeave(gaps, tokens, NAME_SEPARATORS);
    }
  }

  lemma SpacedCons(token: string, gaps: seq<string>, tokens: seq<string>, seps: set<char>)
    requires Spaced(gaps, tokens, seps) && token != "" && NoneIn(token, seps) && (tokens != [] ==> gaps[0] != "")
    ensures Spaced([""] + gaps, [token] + tokens, seps)
    ensures Weave([""] + gaps, [token] + tokens) == token + Weave(gaps, tokens)
  {
    assert ([""] + gaps)[1..] == gaps && ([token] + tokens)[1..] == tokens;
  }

  /** Any text is a spacing of exactly its tokens. */
  lemma {:induction false} TextIsWeave(s: string, seps: set<char>) returns (gaps: seq<string>)
    ensures Spaced(gaps, Tokens(s, seps), seps) && Weave(gaps, Tokens(s, seps)) == s
    ensures s != "" && s[0] in seps ==> gaps[0] != ""
    decreases |s|
  {
    if s == "" {
      gaps := [""];
    } else if s[0] in seps {
      var rest := TextIsWeave(s[1..], seps);
      gaps := [[s[0]] + rest[0]] + rest[1..];
      assert gaps[1..] == rest[1..];
      assert s == [s[0]] + s[1..];
    } else {
      var n := TokenLength(s, seps);
      var rest := TextIsWeave(s[n..], seps);
      SpacedCons(s[..n], rest, Tokens(s[n..], seps), seps);
      gaps := [""] + rest;
    }
  }

  // ---------------------------------------------------------------------------------------------------------------
  // The loops
  // ---------------------------------------------------------------------------------------------------------------

  /** A string as C code may hold it: no terminator inside. */
  type CString = s: string | '\0' !in s

  /** From scan on, the buffer still holds s and its terminator. */
  ghost predicate Unread(buffer: array<char>, scan: nat, s: string)
    reads buffer
  {
    && buffer.Length == |s| + 1
    && scan <= |s|
    && (forall k :: scan <= k < |s| ==> buffer[k] == s[k])
    && buffer[|s|] == '\0'
  }

  method CopyOf(s: CString) returns (buffer: array<char>)
    ensures fresh(buffer) && Unread(buffer, 0, s)
  {
    buffer := new char[|s| + 1];
    forall i | 0 <= i < |s| {
      buffer[i] := s[i];
    }
    buffer[|s|] := '\0';
  }

  /** Dmod_StrDup: the text from start up to the next terminator. */
  method StrDup(buffer: array<char>, start: nat) returns (s: string)
    requires start < buffer.Length && buffer[buffer.Length - 1] == '\0'
    ensures forall k :: start <= k < start + |s| ==> k < buffer.Length && buffer[k] != '\0'
    ensures start + |s| < buffer.Length && buffer[start..start + |s|] == s && buffer[start + |s|] == '\0'
  {
    var i := start;
    s := "";
    while buffer[i] != '\0'
      invariant start <= i < buffer.Length && s == buffer[start..i]
      invariant forall k :: start <= k < i ==> buffer[k] != '\0'
      decreases buffer.Length - i
    {
      s := s + [buffer[i]];
      i := i + 1;
    }
  }

  lemma TokensFromSeparator(s: string, i: nat, seps: set<char>)
    requires i < |s| && s[i] in seps
    ensures Tokens(s[i..], seps) == Tokens(s[i + 1..], seps)
  {
    assert s[i..][1..] == s[i + 1..];
  }

  lemma TokensFromToken(s: string, i: nat, j: nat, seps: set<char>)
    requires i < j <= |s| && NoneIn(s[i..j], seps) && (j < |s| ==> s[j] in seps)
    ensures Tokens(s[i..], seps) == [s[i..j]] + Tokens(s[j..], seps)
  {
    assert s[i..] == s[i..j] + s[j..];
    TokensTakeToken(s[i..j], s[j..], seps);
  }

  method SkipSeparators(buffer: array<char>, start: nat, seps: set<char>, ghost s: CString) returns (scan: nat)
    requires Unread(buffer, start, s) && '\0' !in seps
    ensures start <= scan <= |s| && (scan < |s| ==> s[scan] !in seps)
    ensures Tokens(s[start..], seps) == Tokens(s[scan..], seps)
  {
    scan := start;
    while buffer[scan] in seps
      invariant start <= scan <= |s|
      invariant Tokens(s[start..], seps) == Tokens(s[scan..], seps)
      decreases |s| - scan
    {
      TokensFromSeparator(s, scan, seps);
      scan := scan + 1;
    }
  }

  method SkipToken(buffer: array<char>, start: nat, seps: set<char>, ghost s: CString) returns (scan: nat)
    requires Unread(buffer, start, s) && '\0' !in seps
    requires start < |s| && s[start] !in seps
    ensures start < scan <= |s| && NoneIn(s[start..scan], seps) && (scan < |s| ==> s[scan] in seps)
    ensures Tokens(s[start..], seps) == [s[start..scan]] + Tokens(s[scan..], seps)
  {
    scan := start;
    while buffer[scan] != '\0' && buffer[scan] !in seps
      invariant start <= scan <= |s| && forall k :: start <= k < scan ==> s[k] !in seps
      decreases |s| - scan
    {
      scan := scan + 1;
    }
    TokensFromToken(s, start, scan, seps);
  }

  /** The counting pass of libsystemd_build_argv. */
  method CountTokens(buffer: array<char>, ghost s: CString) returns (count: nat)
    requires Unread(buffer, 0, s)
    ensures count == |Tokens(s, ARG_SEPARATORS)|
  {
    var scan := 0;
    count := 0;
    assert s[0..] == s && s[|s|..] == "";
    while buffer[scan] != '\0'
      invariant 0 <= scan <= |s|
      invariant count + |Tokens(s[scan..], ARG_SEPARATORS)| == |Tokens(s, ARG_SEPARATORS)|
      decreases |s| - scan
    {
      scan := SkipSeparators(buffer, scan, ARG_SEPARATORS, s);
      if buffer[scan] == '\0' {
        break;
      }
      scan := SkipToken(buffer, scan, ARG_SEPARATORS, s);
      count := count + 1;
    }
  }

  /** Cuts the buffer at the end of a token and copies the token out. */
  method CutAt(buffer: array<char>, tokenStart: nat, tokenEnd: nat, seps: set<char>, ghost s: CString)
    returns (token: string, scan: nat)
    requires Unread(buffer, tokenStart, s) && tokenStart < tokenEnd <= |s|
    requires tokenEnd < |s| ==> s[tokenEnd] in seps
    modifies buffer
    ensures tokenEnd <= scan && Unread(buffer, scan, s)
    ensures token == s[tokenStart..tokenEnd]
    ensures Tokens(s[tokenEnd..], seps) == Tokens(s[scan..], seps)
  {
    scan := tokenEnd;
    if buffer[scan] != '\0' {
      buffer[scan] := '\0';
      scan := scan + 1;
      TokensFromSeparator(s, tokenEnd, seps);
    }
    token := StrDup(buffer, tokenStart);
    assert forall k :: 0 <= k < |token| ==> token[k] == buffer[tokenStart + k];
    assert forall k :: tokenStart <= k < tokenEnd ==> buffer[k] == s[k] && s[k] != '\0';
    assert buffer[tokenEnd] == '\0';
  }

  /** One round of a splitting pass: the next token is cut off in place and copied out. */
  method CutToken(buffer: array<char>, start: nat, seps: set<char>, ghost s: CString)
    returns (found: bool, token: string, scan: nat)
    requires Unread(buffer, start, s) && '\0' !in seps
    modifies buffer
    ensures start <= scan && Unread(buffer, scan, s) && (start < |s| ==> start < scan)
    ensures Tokens(s[start..], seps) == if found then [token] + Tokens(s[scan..], seps) else []
  {
    token := "";
    scan := SkipSeparators(buffer, start, seps, s);
    found := buffer[scan] != '\0';
    if !found {
      assert s[scan..] == "";
    } else {
      var tokenStart := scan;
      scan := SkipToken(buffer, scan, seps, s);
      token, scan := CutAt(buffer, tokenStart, scan, seps, s);
    }
  }

  /** libsystemd_build_argv. Every write is bounds-checked: the tokens that are cut are those that were counted. The
      last entry is the NULL sentinel. */
  method BuildArgv(exec: CString, args: CString) returns (argc: nat, argv: array<Option<string>>)
    ensures argc == 1 + |Tokens(args, ARG_SEPARATORS)| && argv.Length == argc + 1
    ensures argv[0] == Some(exec)
    ensures forall k :: 1 <= k < argc ==> argv[k] == Some(Tokens(args, ARG_SEPARATORS)[k - 1])
    ensures argv[argc] == None
  {
    ghost var tokens := Tokens(args, ARG_SEPARATORS);
    var copy := CopyOf(args);
    var count := CountTokens(copy, args);
    argc := 1 + count;
    argv := new Option<string>[argc + 1](_ => None);
    argv[0] := Some(exec);
    var scan, index := 0, 1;
    assert args[0..] == args && args[|args|..] == "";
    while copy[scan] != '\0'
      invariant 0 <= scan <= |args| && Unread(copy, scan, args)
      invariant 1 <= index && argv.Length == argc + 1 && argv[0] == Some(exec)
      invariant index - 1 <= |tokens| && tokens[index - 1..] == Tokens(args[scan..], ARG_SEPARATORS)
      invariant forall k :: 1 <= k < index ==> argv[k] == Some(tokens[k - 1])
      invariant forall k :: index <= k <= argc ==> argv[k] == None
      decreases |args| - scan
    {
      ghost var rest := tokens[index - 1..];
      var found, token;
      found, token, scan := CutToken(copy, scan, ARG_SEPARATORS, args);
      if !found {
        break;
      }
      assert token == rest[0] == tokens[index - 1] && tokens[index..] == rest[1..];
      argv[index] := Some(token);
      index := index + 1;
    }
    assert tokens[index - 1..] == [];
  }

  /** libsystemd_parse_name_list for a key that is present. */
  method ParseNameList(value: CString) returns (names: seq<string>)
    ensures names == Tokens(value, NAME_SEPARATORS)
  {
    var copy := CopyOf(value);
    var scan := 0;
    names := [];
    assert value[0..] == value && value[|value|..] == "";
    while copy[scan] != '\0'
      invariant 0 <= scan <= |value| && Unread(copy, scan, value)
      invariant names + Tokens(value[scan..], NAME_SEPARATORS) == Tokens(value, NAME_SEPARATORS)
      decreases |value| - scan
    {
      var found, token;
      found, token, scan := CutToken(copy, scan, NAME_SEPARATORS, value);
      if !found {
        return;
      }
      names := names + [token];
    }
  }
}
