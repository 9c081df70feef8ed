/** The three text expanders of unit and rule files (app/libsystemd/src/serviceapi.c:2076-2248, 2362-2402).

    Each one measures the result in a first pass, allocates exactly that, and writes it in a second pass. A string is a
    C string without its terminator; a result buffer ends with the terminator. */
module Expansion {
  import opened Wrappers

  /** What the specifiers of a template instance stand for. */
  datatype Env = Env(
    prefix: string,
    instance: string,
    unitName: string,
    userValue: Option<string>,
    source: Option<string>)

  // ---------------------------------------------------------------------------------------------------------------
  // Specifiers
  // ---------------------------------------------------------------------------------------------------------------

  function TrimSlashes(s: string): (r: string)
    ensures r <= s
    ensures r == "" || r[|r| - 1] != '/'
    ensures forall i :: |r| <= i < |s| ==> s[i] == '/'
  {
    if s != "" && s[|s| - 1] == '/' then TrimSlashes(s[..|s| - 1]) else s
  }

  /** The text of %m. */
  function MountText(source: Option<string>): string {
    TrimSlashes(source.GetOr(""))
  }

  /** The text a specifier character stands for, or None for an unknown one. */
  function Replacement(c: char, env: Env): Option<string> {
    if c == 'i' || c == 'I' then Some(env.instance)
    else if c == 'p' then Some(env.prefix)
    else if c == 'n' then Some(env.unitName)
    else if c == 'v' then Some(env.userValue.GetOr(""))
    else if c == 'm' then Some(MountText(env.source))
    else if c == '%' then Some("%")
    else None
  }

  /** Left-to-right expansion. What is inserted is never looked at again. */
  function Expand(value: string, env: Env): string {
    if value == "" then ""
    else if value[0] == '%' && |value| > 1 && Replacement(value[1], env).Some? then
      Replacement(value[1], env).value + Expand(value[2..], env)
    else
      [value[0]] + Expand(value[1..], env)
  }

  /** Every % doubled: how a literal text is written in a template. */
  function Escape(s: string): string {
    if s == "" then "" else (if s[0] == '%' then "%%" else [s[0]]) + Escape(s[1..])
  }

  /** Whether the left-to-right reading of s ends without a % that is still waiting for its second character. Which
      characters are specifiers does not depend on the environment. */
  function Settled(s: string): bool {
    if s == "" then true
    else if s[0] == '%' then |s| > 1 && Settled(if IsSpecifier(s[1]) then s[2..] else s[1..])
    else Settled(s[1..])
  }

  predicate IsSpecifier(c: char) {
    c in "iIpnvm%"
  }

  lemma SpecifiersAreKnown(c: char, env: Env)
    ensures Replacement(c, env).Some? <==> IsSpecifier(c)
  {
    if IsSpecifier(c) {
      assert c == 'i' || c == 'I' || c == 'p' || c == 'n' || c == 'v' || c == 'm' || c == '%';
    } else {
      assert "iIpnvm%"[0] == 'i' && "iIpnvm%"[1] == 'I' && "iIpnvm%"[2] == 'p' && "iIpnvm%"[3] == 'n';
      assert "iIpnvm%"[4] == 'v' && "iIpnvm%"[5] == 'm' && "iIpnvm%"[6] == '%';
    }
  }

  /** Escaping is undone by expansion, whatever the environment. */
  lemma {:induction false} ExpandEscape(s: string, env: Env)
    ensures Expand(Escape(s), env) == s
  {
    if s != "" {
      var rest := Escape(s[1..]);
      ExpandEscape(s[1..], env);
      if s[0] == '%' {
        assert Escape(s) == "%%" + rest && Escape(s)[2..] == rest;
      } else {
        assert Escape(s) == [s[0]] + rest && Escape(s)[1..] == rest;
      }
    }
  }

  /** A text without % is its own expansion, so skipping such values changes nothing. */
  lemma {:induction false} ExpandPlain(s: string, env: Env)
    requires '%' !in s
    ensures Expand(s, env) == s
  {
    if s != "" {
      ExpandPlain(s[1..], env);
    }
  }

  lemma {:induction false} ExpandConcat(s: string, t: string, env: Env)
    requires Settled(s)
    ensures Expand(s + t, env) == Expand(s, env) + Expand(t, env)
  {
    if s == "" {
      assert s + t == t;
    } else {
      assert (s + t)[0] == s[0] && (s + t)[1..] == s[1..] + t;
      if s[0] == '%' {
        SpecifiersAreKnown(s[1], env);
        assert (s + t)[1] == s[1] && (s + t)[2..] == s[2..] + t;
        ExpandConcat(if IsSpecifier(s[1]) then s[2..] else s[1..], t, env);
      } else {
        ExpandConcat(s[1..], t, env);
      }
    }
  }

  lemma {:induction false} ExpandUnsettled(s: string, env: Env)
    requires !Settled(s)
    ensures Expand(s + "%", env) == Expand(s, env)
  {
    assert (s + "%")[0] == s[0] && (s + "%")[1..] == s[1..] + "%";
    if s == "%" {
      assert s + "%" == "%%" && Expand("%%", env) == "%" && Expand("%", env) == "%";
    } else if s[0] == '%' {
      SpecifiersAreKnown(s[1], env);
      assert (s + "%")[1] == s[1] && (s + "%")[2..] == s[2..] + "%";
      ExpandUnsettled(if IsSpecifier(s[1]) then s[2..] else s[1..], env);
    } else {
      ExpandUnsettled(s[1..], env);
    }
  }

  /** Expansion distributes over concatenation exactly when the left part leaves no unpaired %. */
  lemma ExpandDistributesIffSettled(s: string, env: Env)
    ensures Settled(s) <==> forall t :: Expand(s + t, env) == Expand(s, env) + Expand(t, env)
  {
    if Settled(s) {
      forall t ensures Expand(s + t, env) == Expand(s, env) + Expand(t, env) {
        ExpandConcat(s, t, env);
      }
    } else {
      ExpandUnsettled(s, env);
      assert Expand("%", env) == "%";
    }
  }

  lemma {:induction false} EscapeSettled(s: string)
    ensures Settled(Escape(s))
  {
    if s != "" {
      var rest := Escape(s[1..]);
      EscapeSettled(s[1..]);
      if s[0] == '%' {
        assert Escape(s) == "%%" + rest && Escape(s)[2..] == rest && IsSpecifier("%%"[1]);
      } else {
        assert Escape(s) == [s[0]] + rest && Escape(s)[1..] == rest;
      }
    }
  }

  lemma {:induction false} SettledConcat(s: string, t: string)
    requires Settled(s)
    ensures Settled(s + t) <==> Settled(t)
  {
    if s == "" {
      assert s + t == t;
    } else {
      assert (s + t)[0] == s[0] && (s + t)[1..] == s[1..] + t;
      if s[0] == '%' {
        assert (s + t)[1] == s[1] && (s + t)[2..] == s[2..] + t;
        SettledConcat(if IsSpecifier(s[1]) then s[2..] else s[1..], t);
      } else {
        SettledConcat(s[1..], t);
      }
    }
  }

  lemma ExpandInside(s: string, middle: string, t: string, env: Env)
    requires Settled(s) && Settled(middle)
    ensures Expand(s + middle + t, env) == Expand(s, env) + Expand(middle, env) + Expand(t, env)
  {
    SettledConcat(s, middle);
    ExpandConcat(s + middle, t, env);
    ExpandConcat(s, middle, env);
  }

  /** A % and the character after it, read on their own. */
  lemma ExpandPair(c: char, env: Env)
    ensures Settled(['%', c])
    ensures Expand(['%', c], env) == if Replacement(c, env).Some? then Replacement(c, env).value else ['%', c]
  {
    var pair := ['%', c];
    SpecifiersAreKnown(c, env);
    assert pair[1..] == [c] && pair[2..] == [] && [c][1..] == [];
    if Replacement(c, env) == None {
      assert c != '%' && Expand([c], env) == [c];
    } else {
      assert Expand(pair, env) == Replacement(c, env).value + Expand("", env);
    }
  }

  lemma PairInText(a: string, c: char, b: string, env: Env)
    ensures Expand(Escape(a) + ['%', c] + Escape(b), env)
         == a + (if Replacement(c, env).Some? then Replacement(c, env).value else ['%', c]) + b
  {
    EscapeSettled(a);
    ExpandPair(c, env);
    ExpandInside(Escape(a), ['%', c], Escape(b), env);
    ExpandEscape(a, env);
    ExpandEscape(b, env);
  }

  /** What each specifier stands for, between any two texts: the instance, the prefix, the unit's name, the value it is
      started with or nothing, the mount point without trailing slashes or nothing. */
  lemma SpecifiersStandFor(a: string, b: string, env: Env)
    ensures Expand(Escape(a) + "%i" + Escape(b), env) == a + env.instance + b
    ensures Expand(Escape(a) + "%I" + Escape(b), env) == a + env.instance + b
    ensures Expand(Escape(a) + "%p" + Escape(b), env) == a + env.prefix + b
    ensures Expand(Escape(a) + "%n" + Escape(b), env) == a + env.unitName + b
    ensures Expand(Escape(a) + "%v" + Escape(b), env) == a + env.userValue.GetOr("") + b
    ensures Expand(Escape(a) + "%m" + Escape(b), env) == a + TrimSlashes(env.source.GetOr("")) + b
  {
    PairInText(a, 'i', b, env);
    PairInText(a, 'I', b, env);
    PairInText(a, 'p', b, env);
    PairInText(a, 'n', b, env);
    PairInText(a, 'v', b, env);
    PairInText(a, 'm', b, env);
  }

  /** Before any other character a % is kept, and so is one at the end. */
  lemma OtherPercentsAreKept(a: string, c: char, b: string, env: Env)
    ensures c !in "iIpnvm%" ==> Expand(Escape(a) + ['%', c] + Escape(b), env) == a + ['%', c] + b
    ensures Expand(Escape(a) + "%", env) == a + "%"
  {
    PairInText(a, c, b, env);
    SpecifiersAreKnown(c, env);
    EscapeSettled(a);
    ExpandConcat(Escape(a), "%", env);
    ExpandEscape(a, env);
    assert "%"[1..] == "";
  }

  // ---------------------------------------------------------------------------------------------------------------
  // Whole tokens: %m in a plain unit, %name in a rule
  // ---------------------------------------------------------------------------------------------------------------

  /** A token whose only % is its first character, so that two occurrences never overlap. */
  ghost predicate IsToken(token: string) {
    && token != ""
    && token[0] == '%'
    && '%' !in token[1..]
  }

  /** strncmp: whether the token starts at scan. */
  predicate OccursAt(value: string, token: string, scan: nat) {
    scan + |token| <= |value| && value[scan..scan + |token|] == token
  }

  function ReplaceAll(value: string, token: string, repl: string): string
    requires token != ""
  {
    if value == "" then ""
    else if OccursAt(value, token, 0) then repl + ReplaceAll(value[|token|..], token, repl)
    else [value[0]] + ReplaceAll(value[1..], token, repl)
  }

  ghost predicate Contains(s: string, token: string) {
    exists i: nat :: OccursAt(s, token, i)
  }

  ghost predicate Free(pieces: seq<string>, token: string) {
    forall k :: 0 <= k < |pieces| ==> !Contains(pieces[k], token)
  }

  function Join(pieces: seq<string>, glue: string): string
    requires pieces != []
  {
    if |pieces| == 1 then pieces[0] else pieces[0] + glue + Join(pieces[1..], glue)
  }

  lemma {:induction false} ReplaceFree(piece: string, token: string, repl: string)
    requires token != "" && !Contains(piece, token)
    ensures ReplaceAll(piece, token, repl) == piece
  {
    if piece != "" {
      assert !OccursAt(piece, token, 0);
      FreeTail(piece, token);
      ReplaceFree(piece[1..], token, repl);
    }
  }

  lemma FreeTail(piece: string, token: string)
    requires piece != "" && !Contains(piece, token)
    ensures !Contains(piece[1..], token)
  {
    if Contains(piece[1..], token) {
      var i: nat :| OccursAt(piece[1..], token, i);
      assert piece[i + 1..i + 1 + |token|] == piece[1..][i..i + |token|];
      assert OccursAt(piece, token, i + 1);
    }
  }

  lemma NoStraddle(piece: string, token: string, rest: string)
    requires piece != "" && IsToken(token) && !Contains(piece, token)
    ensures !OccursAt(piece + token + rest, token, 0)
  {
    var value := piece + token + rest;
    assert value[|piece|] == '%';
    assert forall i :: 1 <= i < |token| ==> token[i] == token[1..][i - 1];
    assert !OccursAt(piece, token, 0);
    assert |token| <= |piece| ==> value[0..0 + |token|] == piece[0..0 + |token|];
    assert |piece| < |token| ==> value[0..0 + |token|][|piece|] == '%';
  }

  /** A free piece in front of a token is passed over unchanged: no occurrence can straddle the border. */
  lemma {:induction false} ReplaceFreeThenToken(piece: string, token: string, rest: string, repl: string)
    requires IsToken(token) && !Contains(piece, token)
    ensures ReplaceAll(piece + token + rest, token, repl) == piece + repl + ReplaceAll(rest, token, repl)
  {
    var value := piece + token + rest;
    if piece == "" {
      assert value == token + rest && value[|token|..] == rest;
    } else {
      NoStraddle(piece, token, rest);
      assert value[1..] == piece[1..] + token + rest;
      FreeTail(piece, token);
      ReplaceFreeThenToken(piece[1..], token, rest, repl);
    }
  }

  /** Replacing turns pieces glued by the token into the same pieces glued by the replacement. */
  lemma {:induction false} ReplaceJoin(pieces: seq<string>, token: string, repl: string)
    requires pieces != [] && IsToken(token) && Free(pieces, token)
    ensures ReplaceAll(Join(pieces, token), token, repl) == Join(pieces, repl)
  {
    if |pieces| == 1 {
      ReplaceFree(pieces[0], token, repl);
    } else {
      ReplaceFreeThenToken(pieces[0], token, Join(pieces[1..], token), repl);
      ReplaceJoin(pieces[1..], token, repl);
    }
  }

  /** Every text is such a joining, so the lemma above says what replacing does to any text. */
  lemma {:induction false} SplitAtToken(value: string, token: string) returns (pieces: seq<string>)
    requires token != ""
    ensures pieces != [] && Free(pieces, token) && Join(pieces, token) == value
    decreases |value|
  {
    if !Contains(value, token) {
      pieces := [value];
    } else {
      var i: nat :| OccursAt(value, token, i);
      var left := SplitAtToken(value[..i], token);
      var right := SplitAtToken(value[i + |token|..], token);
      pieces := left + right;
      JoinConcat(left, right, token);
      assert value == value[..i] + token + value[i + |token|..];
    }
  }

  lemma {:induction false} JoinConcat(left: seq<string>, right: seq<string>, glue: string)
    requires left != [] && right != []
    ensures Join(left + right, glue) == Join(left, glue) + glue + Join(right, glue)
  {
    if |left| == 1 {
      assert (left + right)[1..] == right;
    } else {
      assert (left + right)[1..] == left[1..] + right;
      JoinConcat(left[1..], right, glue);
    }
  }

  /** For a token whose only % leads it, replacing is splitting at the token and gluing with the replacement. */
  lemma ReplaceIsSplitAndJoin(value: string, token: string, repl: string)
    requires IsToken(token)
    ensures exists pieces ::
              pieces != [] && Free(pieces, token) && Join(pieces, token) == value
              && Join(pieces, repl) == ReplaceAll(value, token, repl)
  {
    var pieces := SplitAtToken(value, token);
    ReplaceJoin(pieces, token, repl);
  }

  // ---------------------------------------------------------------------------------------------------------------
  // Plain units: what the documentation says about %%, and what replacing every %m does
  // ---------------------------------------------------------------------------------------------------------------

  /** The documented reading of a plain unit's value, from left to right: %% is taken as it is, %m is replaced,
      everything else is copied. */
  function ReadPlain(value: string, mount: string): string {
    if value == "" then ""
    else if OccursAt(value, "%%", 0) then "%%" + ReadPlain(value[2..], mount)
    else if OccursAt(value, "%m", 0) then mount + ReadPlain(value[2..], mount)
    else [value[0]] + ReadPlain(value[1..], mount)
  }

  /** In that reading no %% is followed by m. */
  predicate NoPairBeforeM(value: string) {
    if value == "" then true
    else if OccursAt(value, "%%", 0) then !(|value| > 2 && value[2] == 'm') && NoPairBeforeM(value[2..])
    else if OccursAt(value, "%m", 0) then NoPairBeforeM(value[2..])
    else NoPairBeforeM(value[1..])
  }

  lemma TwoCharacters(value: string, token: string)
    requires |token| == 2
    ensures OccursAt(value, token, 0) <==> |value| >= 2 && value[0] == token[0] && value[1] == token[1]
  {
    if |value| >= 2 {
      assert value[0..2] == [value[0], value[1]] && token == [token[0], token[1]];
    }
  }

  lemma PairThenM(value: string, mount: string)
    requires |value| > 2 && value[0] == value[1] == '%' && value[2] == 'm'
    ensures ReadPlain(value, mount) == "%%" + ("m" + ReadPlain(value[3..], mount))
    ensures ReplaceAll(value, "%m", mount) == "%" + mount + ReplaceAll(value[3..], "%m", mount)
  {
    var tail, rest := value[1..], value[2..];
    TwoCharacters(value, "%%");
    TwoCharacters(value, "%m");
    TwoCharacters(tail, "%m");
    TwoCharacters(rest, "%%");
    TwoCharacters(rest, "%m");
    assert rest[1..] == value[3..] && tail[2..] == value[3..];
    assert ReadPlain(rest, mount) == "m" + ReadPlain(value[3..], mount);
    assert ReplaceAll(tail, "%m", mount) == mount + ReplaceAll(value[3..], "%m", mount);
  }

  lemma PairNotBeforeM(value: string, mount: string)
    requires |value| >= 2 && value[0] == value[1] == '%' && !(|value| > 2 && value[2] == 'm')
    ensures ReadPlain(value, mount) == "%%" + ReadPlain(value[2..], mount)
    ensures ReplaceAll(value, "%m", mount) == "%%" + ReplaceAll(value[2..], "%m", mount)
  {
    var tail := value[1..];
    TwoCharacters(value, "%%");
    TwoCharacters(value, "%m");
    TwoCharacters(tail, "%m");
    assert tail[1..] == value[2..];
    assert ReplaceAll(tail, "%m", mount) == "%" + ReplaceAll(value[2..], "%m", mount);
  }

  /** What comes first in a value, in both readings. */
  lemma FirstInPlain(value: string, mount: string)
    requires value != ""
    ensures var read, replaced := ReadPlain(value, mount), ReplaceAll(value, "%m", mount);
            if OccursAt(value, "%%", 0) then
              (if |value| > 2 && value[2] == 'm' then
                 && read == "%%" + ("m" + ReadPlain(value[3..], mount))
                 && replaced == "%" + mount + ReplaceAll(value[3..], "%m", mount)
               else
                 && read == "%%" + ReadPlain(value[2..], mount)
                 && replaced == "%%" + ReplaceAll(value[2..], "%m", mount))
            else if OccursAt(value, "%m", 0) then
              read == mount + ReadPlain(value[2..], mount) && replaced == mount + ReplaceAll(value[2..], "%m", mount)
            else
              read == [value[0]] + ReadPlain(value[1..], mount)
                  && replaced == [value[0]] + ReplaceAll(value[1..], "%m", mount)
  {
    TwoCharacters(value, "%%");
    if OccursAt(value, "%%", 0) {
      if |value| > 2 && value[2] == 'm' {
        PairThenM(value, mount);
      } else {
        PairNotBeforeM(value, mount);
      }
    }
  }

  /** Replacing every %m reaches at least as many places as the documented reading, and more if a pair comes before
      m. */
  lemma {:induction false} PlainLengths(value: string, mount: string)
    ensures var read, replaced := |ReadPlain(value, mount)|, |ReplaceAll(value, "%m", mount)|;
            && (|mount| >= 2 ==> replaced >= read)
            && (|mount| <= 2 ==> replaced <= read)
            && (|mount| != 2 && !NoPairBeforeM(value) ==> replaced != read)
    decreases |value|
  {
    if value != "" {
      FirstInPlain(value, mount);
      if OccursAt(value, "%%", 0) {
        if |value| > 2 && value[2] == 'm' {
          PlainLengths(value[3..], mount);
        } else {
          PlainLengths(value[2..], mount);
        }
      } else if OccursAt(value, "%m", 0) {
        PlainLengths(value[2..], mount);
      } else {
        PlainLengths(value[1..], mount);
      }
    }
  }

  /** A plain unit's value comes out as documented exactly when no %% in it is followed by m. The one mount point
      for which this makes no difference is a text that reads %m itself. */
  lemma {:induction false} PlainReadsAsDocumentedIff(value: string, mount: string)
    ensures ReplaceAll(value, "%m", mount) == ReadPlain(value, mount) <==> NoPairBeforeM(value) || mount == "%m"
    decreases |value|
  {
    if value != "" {
      FirstInPlain(value, mount);
      PlainLengths(value, mount);
      if OccursAt(value, "%%", 0) {
        if |value| > 2 && value[2] == 'm' {
          PlainReadsAsDocumentedIff(value[3..], mount);
          PairBeforeM(mount, ReplaceAll(value[3..], "%m", mount), ReadPlain(value[3..], mount));
        } else {
          PlainReadsAsDocumentedIff(value[2..], mount);
          SameHead("%%", ReplaceAll(value[2..], "%m", mount), ReadPlain(value[2..], mount));
        }
      } else if OccursAt(value, "%m", 0) {
        PlainReadsAsDocumentedIff(value[2..], mount);
        SameHead(mount, ReplaceAll(value[2..], "%m", mount), ReadPlain(value[2..], mount));
      } else {
        PlainReadsAsDocumentedIff(value[1..], mount);
        SameHead([value[0]], ReplaceAll(value[1..], "%m", mount), ReadPlain(value[1..], mount));
      }
    }
  }

  lemma SameHead(head: string, a: string, b: string)
    ensures head + a == head + b <==> a == b
  {
    assert (head + a)[|head|..] == a && (head + b)[|head|..] == b;
  }

  lemma PairBeforeM(mount: string, a: string, b: string)
    requires mount == "%m" ==> a == b
    ensures |mount| == 2 ==> ("%" + mount + a == "%%" + ("m" + b) <==> mount == "%m")
  {
    if |mount| == 2 {
      var left, right := "%" + mount + a, "%%" + ("m" + b);
      assert left[1] == mount[0] && left[2] == mount[1] && right[1] == '%' && right[2] == 'm';
      assert left == right ==> mount == "%m";
      if mount == "%m" {
        assert left == right;
      }
    }
  }

  /** So %%m is not an escape in a plain unit, unlike in a template instance; but %%%m comes out as documented. */
  lemma PlainUnitExpandsInsideDoubledPercent(env: Env)
    ensures ReplaceAll("%%m", "%m", MountText(env.source)) == "%" + MountText(env.source)
    ensures Expand("%%m", env) == "%m"
    ensures !NoPairBeforeM("%%m") && NoPairBeforeM("%%%m")
  {
    assert "%%m"[1..] == "%m" && "%m"[2..] == "" && "%%m"[2..] == "m" && "m"[1..] == "";
    assert "%%m"[0] == '%' && "%%m"[1] == '%';
    assert ReplaceAll("%m", "%m", MountText(env.source)) == MountText(env.source) + "";
    assert Expand("m", env) == "m";
    assert OccursAt("%%m", "%%", 0);
    assert OccursAt("%%%m", "%%", 0) && "%%%m"[2..] == "%m" && NoPairBeforeM("%m");
  }

  // ---------------------------------------------------------------------------------------------------------------
  // The loops
  // ---------------------------------------------------------------------------------------------------------------

  /** libsystemd_mount_specifier_length. */
  method MountSpecifierLength(source: Option<string>) returns (len: nat)
    ensures len <= |source.GetOr("")| && source.GetOr("")[..len] == MountText(source)
  {
    var value := source.GetOr("");
    len := |value|;
    while len > 0 && value[len - 1] == '/'
      invariant len <= |value| && TrimSlashes(value[..len]) == TrimSlashes(value)
    {
      assert value[..len][..len - 1] == value[..len - 1];
      len := len - 1;
    }
  }

  /** memcpy into a result buffer: of the whole text, rest is what is still to be written afterwards. */
  method Write(buffer: array<char>, at: nat, text: string, ghost rest: string, ghost whole: string)
    requires at <= buffer.Length && buffer[..at] + (text + rest) == whole && |whole| < buffer.Length
    modifies buffer
    ensures at + |text| + |rest| == |whole| && buffer[..at + |text|] + rest == whole
  {
    forall k | 0 <= k < |text| {
      buffer[at + k] := text[k];
    }
    assert buffer[..at + |text|] == old(buffer[..at]) + text;
    assert old(buffer[..at]) + text + rest == old(buffer[..at]) + (text + rest);
  }

  /** The whole text is written; the terminator goes behind it. */
  method Terminate(buffer: array<char>, ghost whole: string)
    requires buffer.Length == |whole| + 1 && buffer[..|whole|] == whole
    modifies buffer
    ensures buffer[..] == whole + ['\0']
  {
    buffer[buffer.Length - 1] := '\0';
  }

  /** Whether a specifier starts at scan, and then the text that takes its place; otherwise one character stays. */
  function NextPiece(value: string, scan: nat, env: Env): (string, nat)
    requires scan < |value|
  {
    if value[scan] == '%' && scan + 1 < |value| && Replacement(value[scan + 1], env).Some? then
      (Replacement(value[scan + 1], env).value, scan + 2)
    else
      ([value[scan]], scan + 1)
  }

  lemma ExpandFrom(value: string, scan: nat, env: Env)
    requires scan < |value|
    ensures var (text, next) := NextPiece(value, scan, env);
            scan < next <= |value| && Expand(value[scan..], env) == text + Expand(value[next..], env)
  {
    var rest := value[scan..];
    assert rest[1..] == value[scan + 1..];
    if scan + 2 <= |value| {
      assert rest[2..] == value[scan + 2..];
    }
  }

  /** The measuring pass of libsystemd_substitute_specifiers. */
  method MeasureExpansion(value: string, env: Env) returns (length: nat)
    ensures length == |Expand(value, env)|
  {
    var mountLength := MountSpecifierLength(env.source);
    var scan := 0;
    length := 0;
    assert value[0..] == value;
    while scan < |value|
      invariant 0 <= scan <= |value|
      invariant length + |Expand(value[scan..], env)| == |Expand(value, env)|
    {
      ExpandFrom(value, scan, env);
      if value[scan] == '%' && scan + 1 < |value| && Replacement(value[scan + 1], env).Some? {
        length := length + (if value[scan + 1] == 'm' then mountLength else |Replacement(value[scan + 1], env).value|);
        scan := scan + 2;
      } else {
        length := length + 1;
        scan := scan + 1;
      }
    }
  }

  /** One round of the writing pass. */
  method WriteExpansion(buffer: array<char>, dst: nat, value: string, scan: nat, env: Env, ghost whole: string)
    returns (next: nat, end: nat)
    requires scan < |value| && dst <= buffer.Length == |whole| + 1
    requires buffer[..dst] + Expand(value[scan..], env) == whole
    modifies buffer
    ensures scan < next <= |value| && end <= |whole|
    ensures buffer[..end] + Expand(value[next..], env) == whole
  {
    ExpandFrom(value, scan, env);
    var (text, after) := NextPiece(value, scan, env);
    next := after;
    Write(buffer, dst, text, Expand(value[next..], env), whole);
    end := dst + |text|;
  }

  /** libsystemd_substitute_specifiers. The bounds of every write are checked: the writing pass never leaves the buffer
      that the measuring pass sized, and fills it. */
  method SubstituteSpecifiers(value: string, env: Env) returns (result: array<char>)
    ensures result[..] == Expand(value, env) + ['\0']
  {
    var length := MeasureExpansion(value, env);
    result := new char[length + 1];
    var scan, dst := 0, 0;
    assert value[0..] == value;
    ghost var whole := Expand(value, env);
    while scan < |value|
      invariant 0 <= scan <= |value| && 0 <= dst <= length
      invariant result[..dst] + Expand(value[scan..], env) == whole
    {
      scan, dst := WriteExpansion(result, dst, value, scan, env, whole);
    }
    Terminate(result, whole);
  }

  function NextText(value: string, scan: nat, token: string, repl: string): (string, nat)
    requires scan < |value|
  {
    if OccursAt(value, token, scan) then (repl, scan + |token|) else ([value[scan]], scan + 1)
  }

  lemma ReplaceFrom(value: string, scan: nat, token: string, repl: string)
    requires token != "" && scan < |value|
    ensures var (text, next) := NextText(value, scan, token, repl);
            scan < next <= |value|
            && ReplaceAll(value[scan..], token, repl) == text + ReplaceAll(value[next..], token, repl)
  {
    var rest := value[scan..];
    assert rest[1..] == value[scan + 1..];
    if OccursAt(value, token, scan) {
      assert rest[|token|..] == value[scan + |token|..];
    }
    assert scan + |token| <= |value| ==> rest[0..0 + |token|] == value[scan..scan + |token|];
  }

  /** The measuring pass that the two whole-token expanders share. */
  method MeasureReplacement(value: string, token: string, repl: string) returns (length: nat)
    requires token != ""
    ensures length == |ReplaceAll(value, token, repl)|
  {
    var scan := 0;
    length := 0;
    assert value[0..] == value;
    while scan < |value|
      invariant 0 <= scan <= |value|
      invariant length + |ReplaceAll(value[scan..], token, repl)| == |ReplaceAll(value, token, repl)|
    {
      ReplaceFrom(value, scan, token, repl);
      var (text, next) := NextText(value, scan, token, repl);
      ghost var rest := ReplaceAll(value[next..], token, repl);
      assert |text + rest| == |text| + |rest|;
      scan, length := next, length + |text|;
    }
  }

  /** One round of the writing pass that the two whole-token expanders share. */
  method WriteReplacement(buffer: array<char>, dst: nat, value: string, scan: nat, token: string, repl: string,
                          ghost whole: string)
    returns (next: nat, end: nat)
    requires token != "" && scan < |value| && dst <= buffer.Length == |whole| + 1
    requires buffer[..dst] + ReplaceAll(value[scan..], token, repl) == whole
    modifies buffer
    ensures scan < next <= |value| && end <= |whole|
    ensures buffer[..end] + ReplaceAll(value[next..], token, repl) == whole
  {
    ReplaceFrom(value, scan, token, repl);
    var (text, after) := NextText(value, scan, token, repl);
    next := after;
    Write(buffer, dst, text, ReplaceAll(value[next..], token, repl), whole);
    end := dst + |text|;
  }

  /** The two passes that libsystemd_substitute_mount_specifier and libsystemd_substitute_device_name share. */
  method SubstituteToken(value: string, token: string, repl: string) returns (result: array<char>)
    requires token != ""
    ensures result[..] == ReplaceAll(value, token, repl) + ['\0']
  {
    var length := MeasureReplacement(value, token, repl);
    result := new char[length + 1];
    var scan, dst := 0, 0;
    assert value[0..] == value;
    ghost var whole := ReplaceAll(value, token, repl);
    while scan < |value|
      invariant 0 <= scan <= |value| && 0 <= dst <= length
      invariant result[..dst] + ReplaceAll(value[scan..], token, repl) == whole
    {
      scan, dst := WriteReplacement(result, dst, value, scan, token, repl, whole);
    }
    Terminate(result, whole);
  }

  method SubstituteMountSpecifier(value: string, source: Option<string>) returns (result: array<char>)
    ensures result[..] == ReplaceAll(value, "%m", MountText(source)) + ['\0']
  {
    var length := MountSpecifierLength(source);
    result := SubstituteToken(value, "%m", source.GetOr("")[..length]);
  }

  method SubstituteDeviceName(value: string, deviceName: string) returns (result: array<char>)
    ensures result[..] == ReplaceAll(value, "%name", deviceName) + ['\0']
  {
    result := SubstituteToken(value, "%name", deviceName);
  }
}
