/** Exclusion patterns of directory sync (src/core/transfer-service.ts): the two-array NFA simulation
    against a declarative matcher. */
module Glob {
  import opened Seqs

  datatype Token = Literal(value: char) | Single | Star | Globstar

  // ---------------------------------------------------------------- the declarative matcher

  /** What one token may stand for. */
  predicate Accepts(t: Token, piece: string) {
    match t
    case Literal(c) => piece == [c]
    case Single => |piece| == 1 && piece[0] != '/'
    case Star => '/' !in piece
    case Globstar => true
  }

  ghost predicate Cuts(tokens: seq<Token>, pieces: seq<string>) {
    |pieces| == |tokens| && forall i :: 0 <= i < |tokens| ==> Accepts(tokens[i], pieces[i])
  }

  /** The path can be cut into one piece per token, each accepted by its token. */
  ghost predicate Matches(tokens: seq<Token>, path: string) {
    exists pieces: seq<string> :: Cuts(tokens, pieces) && Concat(pieces) == path
  }

  /** The pattern excludes the path itself or a directory above it. */
  ghost predicate Excludes(tokens: seq<Token>, path: string) {
    Matches(tokens, path) || exists k :: 0 <= k < |path| && path[k] == '/' && Matches(tokens, path[..k])
  }

  lemma MatchesNone(path: string)
    ensures Matches([], path) <==> path == []
  {
    if Matches([], path) {
      var pieces :| Cuts([], pieces) && Concat(pieces) == path;
      assert pieces == [];
    }
    if path == [] {
      var none: seq<string> := [];
      assert Cuts([], none) && Concat(none) == path;
    }
  }

  lemma SplitLast(tokens: seq<Token>, t: Token, path: string) returns (k: nat)
    requires Matches(tokens + [t], path)
    ensures k <= |path| && Matches(tokens, path[..k]) && Accepts(t, path[k..])
  {
    var all := tokens + [t];
    var pieces :| Cuts(all, pieces) && Concat(pieces) == path;
    var front, last := pieces[..|tokens|], pieces[|tokens|];
    assert pieces == front + [last];
    ConcatAppend(front, last);
    k := |Concat(front)|;
    assert path[..k] == Concat(front) && path[k..] == last;
    forall i | 0 <= i < |tokens| ensures Accepts(tokens[i], front[i]) {
      assert tokens[i] == all[i] && front[i] == pieces[i];
    }
    assert Cuts(tokens, front);
    assert Accepts(all[|tokens|], last);
  }

  lemma JoinLast(tokens: seq<Token>, t: Token, path: string, k: nat)
    requires k <= |path| && Matches(tokens, path[..k]) && Accepts(t, path[k..])
    ensures Matches(tokens + [t], path)
  {
    var front :| Cuts(tokens, front) && Concat(front) == path[..k];
    ConcatAppend(front, path[k..]);
    assert path == path[..k] + path[k..];
    assert Cuts(tokens + [t], front + [path[k..]]);
  }

  /** The last token takes some suffix of the path. */
  lemma MatchesLast(tokens: seq<Token>, t: Token, path: string)
    ensures Matches(tokens + [t], path) <==>
            exists k :: 0 <= k <= |path| && Matches(tokens, path[..k]) && Accepts(t, path[k..])
  {
    if Matches(tokens + [t], path) {
      var k := SplitLast(tokens, t, path);
    }
    forall k | 0 <= k <= |path| && Matches(tokens, path[..k]) && Accepts(t, path[k..])
      ensures Matches(tokens + [t], path)
    {
      JoinLast(tokens, t, path, k);
    }
  }

  // ---------------------------------------------------------------- reading one more character

  predicate Repeats(t: Token) {
    t.Star? || t.Globstar?
  }

  /** The character advances past a literal or single token. */
  predicate Consumes(t: Token, c: char) {
    match t
    case Literal(v) => v == c
    case Single => c != '/'
    case _ => false
  }

  /** The character stays inside a star or globstar. */
  predicate Absorbs(t: Token, c: char) {
    t.Globstar? || (t.Star? && c != '/')
  }

  lemma EmptyPath(tokens: seq<Token>, t: Token)
    ensures Matches(tokens + [t], []) <==> Repeats(t) && Matches(tokens, [])
  {
    MatchesLast(tokens, t, []);
    var empty: string := [];
    assert forall k :: 0 <= k <= |empty| ==> empty[..k] == [] && empty[k..] == [];
    if Repeats(t) && Matches(tokens, []) {
      assert Matches(tokens, empty[..0]) && Accepts(t, empty[0..]);
    }
  }

  lemma ConsumingLast(tokens: seq<Token>, t: Token, path: string, c: char)
    requires !Repeats(t)
    ensures Matches(tokens + [t], path + [c]) <==> Matches(tokens, path) && Consumes(t, c)
  {
    var p := path + [c];
    MatchesLast(tokens, t, p);
    assert p[..|path|] == path && p[|path|..] == [c];
    forall k | 0 <= k <= |p| && Accepts(t, p[k..]) ensures k == |path| {
      assert |p[k..]| == 1;
    }
    if Matches(tokens, path) && Consumes(t, c) {
      assert Matches(tokens, p[..|path|]) && Accepts(t, p[|path|..]);
    }
  }

  lemma RepeatingLast(tokens: seq<Token>, t: Token, path: string, c: char)
    requires Repeats(t)
    ensures Matches(tokens + [t], path + [c]) <==>
              Matches(tokens, path + [c]) || (Matches(tokens + [t], path) && Absorbs(t, c))
    ensures Matches(tokens, path) ==> Matches(tokens + [t], path)
  {
    var p := path + [c];
    MatchesLast(tokens, t, p);
    MatchesLast(tokens, t, path);
    assert p[..|p|] == p && p[|p|..] == [] && path[..|path|] == path && path[|path|..] == [];
    if Matches(tokens, p) {
      assert Matches(tokens, p[..|p|]) && Accepts(t, p[|p|..]);
    }
    if Matches(tokens, path) {
      assert Matches(tokens, path[..|path|]) && Accepts(t, path[|path|..]);
    }
    assert forall k :: 0 <= k <= |path| ==> p[..k] == path[..k] && p[k..] == path[k..] + [c];
    if Matches(tokens + [t], path) && Absorbs(t, c) {
      var k :| 0 <= k <= |path| && Matches(tokens, path[..k]) && Accepts(t, path[k..]);
      assert Matches(tokens, p[..k]) && Accepts(t, p[k..]);
    }
    if Matches(tokens + [t], p) && !Matches(tokens, p) {
      var k :| 0 <= k <= |p| && Matches(tokens, p[..k]) && Accepts(t, p[k..]);
      assert k <= |path|;
      assert c in p[k..];
      assert forall d :: d in path[k..] ==> d in p[k..];
      assert Matches(tokens, path[..k]) && Accepts(t, path[k..]);
    }
  }

  // ---------------------------------------------------------------- what an NFA state means

  /** State `i` is active after `path`: the first `i` tokens match it, or the repeating token at `i` is under way. */
  ghost predicate Active(tokens: seq<Token>, i: int, path: string)
    requires 0 <= i <= |tokens|
  {
    if i < |tokens| && Repeats(tokens[i]) then Matches(tokens[..i + 1], path) else Matches(tokens[..i], path)
  }

  /** State `i` is set by reading `c`, before epsilon moves. */
  ghost predicate Stepped(tokens: seq<Token>, i: int, path: string, c: char)
    requires 0 <= i <= |tokens|
  {
    || (i > 0 && Consumes(tokens[i - 1], c) && Active(tokens, i - 1, path))
    || (i < |tokens| && Absorbs(tokens[i], c) && Active(tokens, i, path))
  }

  lemma {:induction false} ActiveAfterEmpty(tokens: seq<Token>, i: nat)
    requires i <= |tokens|
    ensures Active(tokens, i, []) <==> i == 0 || (Repeats(tokens[i - 1]) && Active(tokens, i - 1, []))
  {
    MatchesNone([]);
    assert tokens[..0] == [];
    if i < |tokens| && Repeats(tokens[i]) {
      EmptyPath(tokens[..i], tokens[i]);
    }
    if i > 0 {
      EmptyPath(tokens[..i - 1], tokens[i - 1]);
    }
  }

  lemma {:induction false} ActiveAfterStep(tokens: seq<Token>, i: nat, path: string, c: char)
    requires i <= |tokens|
    ensures Active(tokens, i, path + [c]) <==>
              Stepped(tokens, i, path, c) || (i > 0 && Repeats(tokens[i - 1]) && Active(tokens, i - 1, path + [c]))
  {
    if i < |tokens| && Repeats(tokens[i]) {
      RepeatingLast(tokens[..i], tokens[i], path, c);
    }
    if i == 0 {
      assert tokens[..0] == [];
      MatchesNone(path + [c]);
      MatchesNone(path);
    } else {
      if Repeats(tokens[i - 1]) {
        RepeatingLast(tokens[..i - 1], tokens[i - 1], path, c);
      } else {
        ConsumingLast(tokens[..i - 1], tokens[i - 1], path, c);
      }
    }
  }

  ghost predicate NoneActive(tokens: seq<Token>, path: string) {
    forall i :: 0 <= i <= |tokens| ==> !Active(tokens, i, path)
  }

  /** Once no state is active, none ever is again. */
  lemma {:induction false} DeadForever(tokens: seq<Token>, path: string, more: string)
    requires NoneActive(tokens, path)
    ensures NoneActive(tokens, path + more)
    decreases |more|
  {
    if more == [] {
      assert path + more == path;
    } else {
      var front, c := more[..|more| - 1], more[|more| - 1];
      DeadForever(tokens, path, front);
      assert path + more == (path + front) + [c];
      DeadStep(tokens, |tokens|, path + front, c);
    }
  }

  lemma {:induction false} DeadStep(tokens: seq<Token>, n: nat, path: string, c: char)
    requires NoneActive(tokens, path) && n <= |tokens|
    ensures forall i :: 0 <= i <= n ==> !Active(tokens, i, path + [c])
  {
    if n > 0 {
      DeadStep(tokens, n - 1, path, c);
    }
    ActiveAfterStep(tokens, n, path, c);
  }

  lemma AcceptingIsMatch(tokens: seq<Token>, path: string)
    ensures Active(tokens, |tokens|, path) <==> Matches(tokens, path)
  {
    assert tokens[..|tokens|] == tokens;
  }

  // ---------------------------------------------------------------- the simulation

  /** State `i` is reached by an epsilon move over the repeating token before it. */
  ghost predicate Carried(tokens: seq<Token>, i: int, path: string)
    requires 0 <= i <= |tokens|
  {
    i > 0 && Repeats(tokens[i - 1]) && Active(tokens, i - 1, path)
  }

  /** `before` holds the states that need no epsilon move. */
  ghost predicate Seeds(tokens: seq<Token>, before: seq<bool>, path: string) {
    && |before| == |tokens| + 1
    && forall i :: 0 <= i <= |tokens| ==>
         (Active(tokens, i, path) <==> before[i] || Carried(tokens, i, path))
  }

  /** One forward pass closes the set under epsilon moves. */
  method ExpandEpsilon(states: array<bool>, tokens: seq<Token>, ghost path: string, ghost before: seq<bool>)
    requires states.Length == |tokens| + 1 && before == states[..] && Seeds(tokens, before, path)
    modifies states
    ensures forall i :: 0 <= i <= |tokens| ==> (states[i] <==> Active(tokens, i, path))
  {
    assert Active(tokens, 0, path) <==> before[0];
    for index := 0 to |tokens|
      invariant forall i :: 0 <= i <= index ==> (states[i] <==> Active(tokens, i, path))
      invariant forall i :: index < i <= |tokens| ==> states[i] == before[i]
    {
      assert Active(tokens, index + 1, path) <==> before[index + 1] || Carried(tokens, index + 1, path);
      if states[index] && Repeats(tokens[index]) {
        states[index + 1] := true;
      }
    }
  }

  /** State `i` of the next set, after the active states below `upto` have moved. */
  ghost predicate MovedBits(tokens: seq<Token>, bits: seq<bool>, i: int, upto: int, c: char)
    requires |bits| == |tokens| + 1 && 0 <= i <= upto <= |tokens|
  {
    || (i > 0 && Consumes(tokens[i - 1], c) && bits[i - 1])
    || (i < upto && Absorbs(tokens[i], c) && bits[i])
  }

  /** One character: every active state moves on or stays. */
  method StepStates(states: array<bool>, next: array<bool>, tokens: seq<Token>, character: char, ghost path: string)
    returns (hasActiveState: bool)
    requires states != next && states.Length == next.Length == |tokens| + 1
    requires forall i :: 0 <= i <= |tokens| ==> (states[i] <==> Active(tokens, i, path))
    modifies next
    ensures forall i :: 0 <= i <= |tokens| ==> (next[i] <==> Stepped(tokens, i, path, character))
    ensures hasActiveState <==> exists i :: 0 <= i <= |tokens| && next[i]
  {
    forall i | 0 <= i < next.Length {
      next[i] := false;
    }
    hasActiveState := false;
    ghost var bits := states[..];
    for index := 0 to |tokens|
      invariant states[..] == bits
      invariant forall i :: 0 <= i <= index ==> (next[i] <==> MovedBits(tokens, bits, i, index, character))
      invariant forall i :: index < i <= |tokens| ==> !next[i]
      invariant hasActiveState <==> exists i :: 0 <= i <= |tokens| && next[i]
    {
      if states[index] {
        var token := tokens[index];
        match token
        case Literal(value) =>
          if value == character {
            next[index + 1] := true;
            hasActiveState := true;
            assert next[index + 1];
          }
        case Single =>
          if character != '/' {
            next[index + 1] := true;
            hasActiveState := true;
            assert next[index + 1];
          }
        case Star =>
          if character != '/' {
            next[index] := true;
            hasActiveState := true;
            assert next[index];
          }
        case Globstar =>
          next[index] := true;
          hasActiveState := true;
          assert next[index];
      }
    }
    forall i | 0 <= i <= |tokens| ensures next[i] <==> Stepped(tokens, i, path, character) {
      assert next[i] <==> MovedBits(tokens, bits, i, |tokens|, character);
      assert i > 0 ==> (bits[i - 1] <==> Active(tokens, i - 1, path));
      assert bits[i] <==> Active(tokens, i, path);
    }
  }

  lemma InitialSeeds(tokens: seq<Token>, before: seq<bool>)
    requires |before| == |tokens| + 1 && before[0] && forall i :: 0 < i <= |tokens| ==> !before[i]
    ensures Seeds(tokens, before, [])
  {
    forall i | 0 <= i <= |tokens|
      ensures Active(tokens, i, []) <==> before[i] || Carried(tokens, i, [])
    {
      ActiveAfterEmpty(tokens, i);
    }
  }

  lemma SteppedSeeds(tokens: seq<Token>, before: seq<bool>, path: string, c: char)
    requires |before| == |tokens| + 1 && forall i :: 0 <= i <= |tokens| ==> (before[i] <==> Stepped(tokens, i, path, c))
    ensures Seeds(tokens, before, path + [c])
  {
    forall i | 0 <= i <= |tokens|
      ensures Active(tokens, i, path + [c]) <==> before[i] || Carried(tokens, i, path + [c])
    {
      ActiveAfterStep(tokens, i, path, c);
    }
  }

  /** The matcher with both early exits is exact. */
  method GlobMatchesPathOrDescendant(tokens: seq<Token>, relativePath: string) returns (r: bool)
    ensures r <==> Excludes(tokens, relativePath)
  {
    var n := |tokens|;
    var states := new bool[n + 1](_ => false);
    var next := new bool[n + 1](_ => false);
    states[0] := true;
    InitialSeeds(tokens, states[..]);
    ExpandEpsilon(states, tokens, [], states[..]);
    var at := 0;
    while at < |relativePath|
      invariant 0 <= at <= |relativePath| && states != next && states.Length == next.Length == n + 1
      invariant fresh(states) && fresh(next)
      invariant forall i :: 0 <= i <= n ==> (states[i] <==> Active(tokens, i, relativePath[..at]))
      invariant forall k :: 0 <= k < at && relativePath[k] == '/' ==> !Matches(tokens, relativePath[..k])
    {
      var character := relativePath[at];
      ghost var path := relativePath[..at];
      AcceptingIsMatch(tokens, path);
      if states[n] && character == '/' {
        return true;
      }
      var hasActiveState := StepStates(states, next, tokens, character, path);
      assert relativePath[..at + 1] == path + [character];
      if !hasActiveState {
        NothingMoreMatches(tokens, relativePath, at);
        return false;
      }
      states, next := next, states;
      SteppedSeeds(tokens, states[..], path, character);
      ExpandEpsilon(states, tokens, path + [character], states[..]);
      at := at + 1;
    }
    assert relativePath[..at] == relativePath;
    AcceptingIsMatch(tokens, relativePath);
    return states[n];
  }

  lemma NothingMoreMatches(tokens: seq<Token>, path: string, at: nat)
    requires at < |path| && forall i :: 0 <= i <= |tokens| ==> !Stepped(tokens, i, path[..at], path[at])
    ensures forall k :: at < k <= |path| ==> !Matches(tokens, path[..k])
    ensures !Matches(tokens, path)
  {
    NoneSteppedNoneActive(tokens, |tokens|, path[..at], path[at]);
    assert path[..at + 1] == path[..at] + [path[at]];
    forall k | at < k <= |path| ensures !Matches(tokens, path[..k]) {
      DeadForever(tokens, path[..at + 1], path[at + 1..k]);
      assert path[..k] == path[..at + 1] + path[at + 1..k];
      AcceptingIsMatch(tokens, path[..k]);
    }
    assert path[..|path|] == path;
  }

  lemma {:induction false} NoneSteppedNoneActive(tokens: seq<Token>, n: nat, path: string, c: char)
    requires n <= |tokens| && forall i :: 0 <= i <= |tokens| ==> !Stepped(tokens, i, path, c)
    ensures forall i :: 0 <= i <= n ==> !Active(tokens, i, path + [c])
  {
    if n > 0 {
      NoneSteppedNoneActive(tokens, n - 1, path, c);
    }
    ActiveAfterStep(tokens, n, path, c);
  }

  // ---------------------------------------------------------------- compiling a pattern

  predicate AllStars(piece: string) {
    forall i :: 0 <= i < |piece| ==> piece[i] == '*'
  }

  /** The pattern text of one token; a run of two or more stars is one globstar. */
  predicate Spelling(t: Token, piece: string) {
    match t
    case Literal(c) => piece == [c] && c != '*' && c != '?'
    case Single => piece == ['?']
    case Star => piece == ['*']
    case Globstar => |piece| >= 2 && AllStars(piece)
  }

  /** The pattern is the spelling of the tokens one after the other, with star runs taken whole. */
  ghost predicate Spells(tokens: seq<Token>, pattern: string) {
    if tokens == [] then pattern == []
    else exists n :: 1 <= n <= |pattern| && FirstIs(tokens[0], pattern, n) && Spells(tokens[1..], pattern[n..])
  }

  ghost predicate FirstIs(t: Token, pattern: string, n: int)
    requires 1 <= n <= |pattern|
  {
    Spelling(t, pattern[..n]) && (Repeats(t) ==> n == |pattern| || pattern[n] != '*')
  }

  lemma FirstOfOne(t: Token, piece: string)
    requires piece != [] && Spelling(t, piece)
    ensures Spells([t], piece)
  {
    assert piece[..|piece|] == piece && piece[|piece|..] == [] && [t][1..] == [];
    assert FirstIs(t, piece, |piece|) && Spells([t][1..], piece[|piece|..]);
  }

  lemma FirstStays(t: Token, pattern: string, n: nat, piece: string)
    requires 1 <= n <= |pattern| && FirstIs(t, pattern, n) && piece != []
    requires pattern[|pattern| - 1] == '*' ==> piece[0] != '*'
    ensures FirstIs(t, pattern + piece, n)
  {
    assert (pattern + piece)[..n] == pattern[..n];
    assert Repeats(t) ==> pattern[..n][n - 1] == '*';
  }

  lemma {:induction false} SpellsAppend(tokens: seq<Token>, pattern: string, t: Token, piece: string)
    requires Spells(tokens, pattern) && piece != [] && Spelling(t, piece)
    requires pattern != [] && pattern[|pattern| - 1] == '*' ==> piece[0] != '*'
    ensures Spells(tokens + [t], pattern + piece)
  {
    if tokens == [] {
      assert tokens + [t] == [t] && pattern + piece == piece;
      FirstOfOne(t, piece);
    } else {
      var n :| 1 <= n <= |pattern| && FirstIs(tokens[0], pattern, n) && Spells(tokens[1..], pattern[n..]);
      SpellsAppend(tokens[1..], pattern[n..], t, piece);
      SpellsLonger(tokens[0], tokens[1..] + [t], pattern, n, piece);
      assert [tokens[0]] + (tokens[1..] + [t]) == tokens + [t];
    }
  }

  lemma SpellsLonger(first: Token, rest: seq<Token>, pattern: string, n: nat, piece: string)
    requires 1 <= n <= |pattern| && FirstIs(first, pattern, n) && piece != []
    requires pattern[|pattern| - 1] == '*' ==> piece[0] != '*'
    requires Spells(rest, pattern[n..] + piece)
    ensures Spells([first] + rest, pattern + piece)
  {
    FirstStays(first, pattern, n, piece);
    assert (pattern + piece)[n..] == pattern[n..] + piece;
    SpellsFirst(first, rest, pattern + piece, n);
  }

  lemma SpellsFirst(t: Token, tokens: seq<Token>, pattern: string, n: nat)
    requires 1 <= n <= |pattern| && FirstIs(t, pattern, n) && Spells(tokens, pattern[n..])
    ensures Spells([t] + tokens, pattern)
  {
    assert ([t] + tokens)[1..] == tokens;
  }

  lemma FirstUnique(a: Token, b: Token, pattern: string, n: nat, m: nat)
    requires 1 <= n <= |pattern| && 1 <= m <= |pattern| && FirstIs(a, pattern, n) && FirstIs(b, pattern, m)
    ensures a == b && n == m
  {
    var p, q := pattern[..n], pattern[..m];
    assert p[0] == pattern[0] == q[0];
  }

  /** A pattern has one tokenization. */
  lemma {:induction false} SpellsUnique(a: seq<Token>, b: seq<Token>, pattern: string)
    requires Spells(a, pattern) && Spells(b, pattern)
    ensures a == b
    decreases |a|
  {
    if a != [] && b != [] {
      var n :| 1 <= n <= |pattern| && FirstIs(a[0], pattern, n) && Spells(a[1..], pattern[n..]);
      var m :| 1 <= m <= |pattern| && FirstIs(b[0], pattern, m) && Spells(b[1..], pattern[m..]);
      FirstUnique(a[0], b[0], pattern, n, m);
      assert pattern[n..] == pattern[m..];
      SpellsUnique(a[1..], b[1..], pattern[n..]);
      assert a == [a[0]] + a[1..] && b == [b[0]] + b[1..];
    }
  }

  /** The token at `index` and how many characters it takes. */
  method NextToken(characters: string, index: nat) returns (token: Token, width: nat)
    requires index < |characters|
    ensures 1 <= width && index + width <= |characters|
    ensures Spelling(token, characters[index..index + width])
    ensures characters[index + width - 1] == '*' ==> index + width == |characters| || characters[index + width] != '*'
  {
    var character := characters[index];
    width := 1;
    if character == '*' {
      while index + width < |characters| && characters[index + width] == '*'
        invariant 1 <= width && index + width <= |characters|
        invariant forall i :: index <= i < index + width ==> characters[i] == '*'
      {
        width := width + 1;
      }
      token := if width >= 2 then Globstar else Star;
    } else if character == '?' {
      token := Single;
    } else {
      token := Literal(character);
    }
  }

  lemma SpellsNext(tokens: seq<Token>, characters: string, index: nat, token: Token, width: nat)
    requires 1 <= width && index + width <= |characters| && Spells(tokens, characters[..index])
    requires Spelling(token, characters[index..index + width])
    requires 0 < index && characters[index - 1] == '*' ==> characters[index] != '*'
    ensures Spells(tokens + [token], characters[..index + width])
  {
    var piece := characters[index..index + width];
    assert characters[..index + width] == characters[..index] + piece;
    assert index > 0 ==> characters[..index][index - 1] == characters[index - 1];
    SpellsAppend(tokens, characters[..index], token, piece);
  }

  method CompileTokens(characters: string) returns (tokens: seq<Token>)
    ensures Spells(tokens, characters)
  {
    tokens := [];
    var index := 0;
    while index < |characters|
      invariant 0 <= index <= |characters|
      invariant Spells(tokens, characters[..index])
      invariant 0 < index < |characters| && characters[index - 1] == '*' ==> characters[index] != '*'
    {
      var token, width := NextToken(characters, index);
      SpellsNext(tokens, characters, index, token, width);
      tokens := tokens + [token];
      index := index + width;
    }
    assert characters[..index] == characters;
  }
}
