/** What a stream expands to, byte by byte: a literal is a byte of its own, and every byte of a match is the
    byte `distance` in front of it, whether the match wrote that one or not. */
module InflateBytes {
  import opened Numbers
  import opened BitStream
  import opened Huffman
  import opened DeflateFormat
  import opened Inflate
  import opened InflateTables
  import opened InflateRoundTrip

  /* One match */

  /** n bytes follow, each of them the byte `distance` in front of it. */
  ghost predicate Copied(before: seq<Cell>, after: seq<Cell>, distance: nat, n: nat) {
    && |after| == |before| + n && after[..|before|] == before
    && forall i :: |before| <= i < |after| && distance <= i ==> after[i] == after[i - distance]
  }

  /** That alone determines what a match copies. */
  lemma {:induction false} CopiedExactly(before: seq<Cell>, after: seq<Cell>, distance: nat, n: nat)
    requires 1 <= distance <= |before|
    ensures after == Copy(before, distance, n) <==> Copied(before, after, distance, n)
    decreases n
  {
    if n != 0 {
      CopiedExactly(before + [before[|before| - distance]], after, distance, n - 1);
      CopiedFirst(before, after, distance, n);
    }
  }

  lemma CopiedFirst(before: seq<Cell>, after: seq<Cell>, distance: nat, n: nat)
    requires 1 <= distance <= |before| && n > 0
    ensures Copied(before, after, distance, n)
        <==> Copied(before + [before[|before| - distance]], after, distance, n - 1)
  {
    var next := before + [before[|before| - distance]];
    if Copied(before, after, distance, n) {
      assert after[..|next|] == after[..|before|] + [after[|before|]];
    }
    if Copied(next, after, distance, n - 1) {
      assert after[..|before|] == after[..|next|][..|before|] == before;
      assert after[|before|] == after[..|next|][|before|];
    }
  }

  lemma CopiedAt(before: seq<Cell>, after: seq<Cell>, distance: nat, n: nat, i: nat)
    requires Copied(before, after, distance, n) && |before| <= i < |after| && distance <= i
    ensures after[i] == after[i - distance]
  {
  }

  lemma ModBack(k: nat, d: nat)
    requires d >= 1
    ensures 0 <= k % d < d && (k < d ==> k % d == k)
    ensures k >= d ==> (k - d) % d == k % d
  {
    if k < d { DivModUnique(k, d, 0, k); } else { DivModUnique(k - d, d, k / d - 1, k % d); }
  }

  /** The last `distance` bytes are repeated as often as needed. */
  lemma {:induction false} CopyRepeats(history: seq<Cell>, distance: nat, n: nat, k: nat)
    requires 1 <= distance <= |history| && k < n
    ensures var r := Copy(history, distance, n);
            && |r| == |history| + n && r[..|history|] == history
            && r[|history| + k] == r[|history| + k - distance] == history[|history| - distance + k % distance]
    decreases k
  {
    hide *;
    var r := Copy(history, distance, n);
    CopiedExactly(history, r, distance, n);
    CopiedAt(history, r, distance, n, |history| + k);
    ModBack(k, distance);
    if k < distance {
      assert r[|history| + k - distance] == r[..|history|][|history| + k - distance];
    } else {
      CopyRepeats(history, distance, n, k - distance);
    }
  }

  /* Tokens */

  /** The bytes from p on begin with those of the token. */
  ghost predicate Says(r: seq<Cell>, p: nat, token: Token) {
    match token
    case Literal(value) => p < |r| && r[p] == value
    case Match(length, distance) =>
      && distance <= p && p + length <= |r|
      && forall i :: p <= i < p + length ==> r[i] == r[i - distance]
  }

  /** The bytes from p on are those of the tokens, one token after the other. */
  ghost predicate Spells(tokens: seq<Token>, p: nat, r: seq<Cell>)
    decreases |tokens|
  {
    if tokens == [] then p == |r|
    else Says(r, p, tokens[0]) && Spells(tokens[1..], p + Size(tokens[0]), r)
  }

  lemma {:induction false} SpellsLong(tokens: seq<Token>, p: nat, r: seq<Cell>)
    requires Spells(tokens, p, r)
    ensures p <= |r|
    decreases |tokens|
  {
    if tokens != [] { SpellsLong(tokens[1..], p + Size(tokens[0]), r); }
  }

  lemma {:induction false} ExpandKeeps(codes: Codes, history: seq<Cell>, tokens: seq<Token>)
    requires AllWritable(codes, tokens, |history|)
    ensures |Expand(codes, history, tokens)| >= |history|
    ensures Expand(codes, history, tokens)[..|history|] == history
    decreases |tokens|
  {
    if tokens != [] {
      var next := Emit(history, tokens[0]);
      assert next[..|history|] == history;
      hide Emit, Writable;
      ExpandKeeps(codes, next, tokens[1..]);
      assert Expand(codes, history, tokens)[..|history|] == Expand(codes, next, tokens[1..])[..|next|][..|history|];
    }
  }

  /** What starts with the history and a token's bytes starts with the history after that token. */
  lemma SaysExactly(history: seq<Cell>, token: Token, r: seq<Cell>)
    requires token.Match? ==> 1 <= token.distance <= |history|
    requires |r| >= |history| && r[..|history|] == history
    ensures Says(r, |history|, token)
        <==> |history| + Size(token) <= |r| && r[..|history| + Size(token)] == Emit(history, token)
  {
    var p, n := |history|, Size(token);
    if p + n <= |r| {
      var after := r[..p + n];
      assert after[..p] == history;
      match token
      case Literal(value) => assert after == history + [r[p]];
      case Match(length, distance) =>
        CopiedExactly(history, after, distance, length);
        CopiedOf(history, after, r, distance, length);
    }
  }

  lemma CopiedOf(history: seq<Cell>, after: seq<Cell>, r: seq<Cell>, distance: nat, n: nat)
    requires 1 <= distance <= |history| && |history| + n <= |r| && after == r[..|history| + n]
    requires after[..|history|] == history
    ensures Copied(history, after, distance, n) <==> Says(r, |history|, Match(n, distance))
  {
    assert forall i :: 0 <= i < |after| ==> after[i] == r[i];
  }

  /** The expansion of tokens is exactly what starts with the history and goes on with their bytes. */
  lemma {:induction false} ExpandsExactly(codes: Codes, history: seq<Cell>, tokens: seq<Token>, r: seq<Cell>)
    requires AllWritable(codes, tokens, |history|)
    ensures r == Expand(codes, history, tokens)
        <==> |r| >= |history| && r[..|history|] == history && Spells(tokens, |history|, r)
    decreases |tokens|
  {
    hide *;
    ExpandKeeps(codes, history, tokens);
    SpellsFirst(tokens, |history|, r);
    if tokens == [] {
      ExpandsToItself(codes, history);
      if |r| == |history| { assert r[..|history|] == r; }
    } else {
      EmitFirst(codes, history, tokens);
      var next := Emit(history, tokens[0]);
      ExpandsExactly(codes, next, tokens[1..], r);
      if |r| >= |next| { assert r[..|next|][..|history|] == r[..|history|]; }
      if Spells(tokens, |history|, r) { SpellsLong(tokens[1..], |next|, r); }
      if |r| >= |history| && r[..|history|] == history { SaysExactly(history, tokens[0], r); }
    }
  }

  lemma SpellsFirst(tokens: seq<Token>, p: nat, r: seq<Cell>)
    ensures tokens == [] ==> (Spells(tokens, p, r) <==> p == |r|)
    ensures tokens != [] ==>
      (Spells(tokens, p, r) <==> Says(r, p, tokens[0]) && Spells(tokens[1..], p + Size(tokens[0]), r))
  {
    hide Says;
  }

  lemma ExpandsToItself(codes: Codes, history: seq<Cell>)
    requires AllWritable(codes, [], |history|)
    ensures Expand(codes, history, []) == history
  {
  }

  lemma EmitFirst(codes: Codes, history: seq<Cell>, tokens: seq<Token>)
    requires tokens != [] && AllWritable(codes, tokens, |history|)
    ensures tokens[0].Match? ==> 1 <= tokens[0].distance <= |history|
    ensures var next := Emit(history, tokens[0]);
            && next[..|history|] == history && AllWritable(codes, tokens[1..], |next|)
            && Expand(codes, history, tokens) == Expand(codes, next, tokens[1..])
  {
    hide *;
    WritableFirst(codes, tokens, |history|);
    EmitKeeps(history, tokens[0]);
    ExpandOnce(codes, history, tokens);
  }

  lemma EmitKeeps(history: seq<Cell>, token: Token)
    requires token.Match? ==> 1 <= token.distance <= |history|
    ensures |Emit(history, token)| == |history| + Size(token) && Emit(history, token)[..|history|] == history
  {
  }

  /** So the symbol loop reads the bytes that the tokens of a block spell. */
  lemma ReadsBytes(src: seq<byte>, c: Cursor, lt: Tree, dt: Tree, ml: nat, md: nat, codes: Codes,
                   tokens: seq<Token>, history: seq<Cell>, fuel: nat)
    requires c.Valid() && Reads(lt, codes.lit, ml) && Reads(dt, codes.dist, md)
    requires HasCode(codes.lit, END_OF_BLOCK) && AllWritable(codes, tokens, |history|)
    requires BitsAt(src, c.Pos(), TokensBits(codes, tokens, |history|)) && fuel > |tokens|
    ensures var r := InflateData(src, c, lt, dt, history, fuel).history;
            |r| >= |history| && r[..|history|] == history && Spells(tokens, |history|, r)
  {
    hide *;
    var c' := ReadsTokens(src, c, lt, dt, ml, md, codes, tokens, history, fuel);
    ExpandsExactly(codes, history, tokens, Expand(codes, history, tokens));
  }

  /* Streams */

  function Literals(data: seq<byte>): (r: seq<Token>)
    ensures |r| == |data|
  {
    if data == [] then [] else [Literal(data[0])] + Literals(data[1..])
  }

  /** The tokens of a block; each byte of a stored one counts as a literal. */
  function TokensOf(b: Body): seq<Token> {
    match b
    case Stored(_, data) => Literals(data)
    case Fixed(tokens) => tokens
    case Dynamic(_, tokens) => tokens
  }

  function AllTokens(bs: seq<Block>): seq<Token> {
    if bs == [] then [] else TokensOf(bs[0].body) + AllTokens(bs[1..])
  }

  lemma {:induction false} LiteralsSpell(data: seq<byte>, p: nat, r: seq<Cell>, more: seq<Token>)
    requires p + |data| <= |r| && forall i :: 0 <= i < |data| ==> r[p + i] == data[i]
    ensures Spells(Literals(data) + more, p, r) <==> Spells(more, p + |data|, r)
    decreases |data|
  {
    var tokens := Literals(data) + more;
    if data == [] {
      assert tokens == more;
    } else {
      assert tokens[0] == Literal(data[0]) && tokens[1..] == Literals(data[1..]) + more;
      assert Says(r, p, tokens[0]) && Size(tokens[0]) == 1 by { assert r[p + 0] == data[0]; }
      hide Literals, Says, Size;
      SpellsFirst(tokens, p, r);
      forall i | 0 <= i < |data[1..]| ensures r[p + 1 + i] == data[1..][i] {
        assert r[p + (i + 1)] == data[i + 1];
      }
      hide Spells;
      LiteralsSpell(data[1..], p + 1, r, more);
    }
  }

  /** Tokens spell what they spelled when more bytes and tokens follow. */
  lemma {:induction false} SpellsOn(tokens: seq<Token>, p: nat, part: seq<Cell>, r: seq<Cell>, more: seq<Token>)
    requires Spells(tokens, p, part) && |part| <= |r| && r[..|part|] == part
    ensures Spells(tokens + more, p, r) <==> Spells(more, |part|, r)
    decreases |tokens|
  {
    if tokens == [] {
      assert tokens + more == more;
    } else {
      var all := tokens + more;
      assert all[0] == tokens[0] && all[1..] == tokens[1..] + more;
      SaysOn(part, r, p, tokens[0]);
      hide Says;
      SpellsOn(tokens[1..], p + Size(tokens[0]), part, r, more);
    }
  }

  lemma SaysOn(part: seq<Cell>, r: seq<Cell>, p: nat, token: Token)
    requires |part| <= |r| && r[..|part|] == part && Says(part, p, token)
    ensures Says(r, p, token)
  {
    assert forall i :: 0 <= i < |part| ==> part[i] == r[i];
  }

  lemma BodySpells(b: Body, p: nat, history: seq<Cell>, r: seq<Cell>, more: seq<Token>)
    requires ValidBody(b, p, |history|)
    requires var next := ExpandBody(b, p, history); |next| <= |r| && r[..|next|] == next
    ensures var next := ExpandBody(b, p, history);
            && |history| <= |next| && next[..|history|] == history
            && (Spells(TokensOf(b) + more, |history|, r) <==> Spells(more, |next|, r))
  {
    hide Spells, Literals, Expand, FixedCodes, AllWritable;
    match b
    case Stored(_, data) => StoredSpells(data, history, r, more);
    case Fixed(tokens) => TokensSpell(FixedCodes(), tokens, history, r, more);
    case Dynamic(header, tokens) => TokensSpell(header.codes, tokens, history, r, more);
  }

  lemma StoredSpells(data: seq<byte>, history: seq<Cell>, r: seq<Cell>, more: seq<Token>)
    requires var next := history + data; |next| <= |r| && r[..|next|] == next
    ensures (history + data)[..|history|] == history
    ensures Spells(Literals(data) + more, |history|, r) <==> Spells(more, |history| + |data|, r)
  {
    hide Spells, Literals;
    var next := history + data;
    forall i | 0 <= i < |data| ensures r[|history| + i] == data[i] { assert r[|history| + i] == next[|history| + i]; }
    LiteralsSpell(data, |history|, r, more);
  }

  lemma TokensSpell(codes: Codes, tokens: seq<Token>, history: seq<Cell>, r: seq<Cell>, more: seq<Token>)
    requires AllWritable(codes, tokens, |history|)
    requires var next := Expand(codes, history, tokens); |next| <= |r| && r[..|next|] == next
    ensures var next := Expand(codes, history, tokens);
            && |history| <= |next| && next[..|history|] == history
            && (Spells(tokens + more, |history|, r) <==> Spells(more, |next|, r))
  {
    hide *;
    var next := Expand(codes, history, tokens);
    ExpandsExactly(codes, history, tokens, next);
    SpellsOn(tokens, |history|, next, r, more);
  }

  lemma {:induction false} BlocksKeep(bs: seq<Block>, p: nat, history: seq<Cell>)
    requires ValidBlocks(bs, p, history)
    ensures var r := ExpandBlocks(bs, p, history); |r| >= |history| && r[..|history|] == history
    decreases |bs|
  {
    if bs != [] {
      hide ExpandBody, BlockEnd, ValidBody;
      var end, next := BlockEnd(bs[0], p, |history|), ExpandBody(bs[0].body, p + 3, history);
      BlocksKeep(bs[1..], end, next);
      BodySpells(bs[0].body, p + 3, history, next, []);
      assert ExpandBlocks(bs, p, history)[..|history|] == ExpandBlocks(bs[1..], end, next)[..|next|][..|history|];
    }
  }

  /** The expansion of a stream is exactly what starts with the history and goes on with the bytes of
      all its tokens, whatever blocks they are in. */
  lemma {:induction false} BlocksSpell(bs: seq<Block>, p: nat, history: seq<Cell>)
    requires ValidBlocks(bs, p, history)
    ensures var r := ExpandBlocks(bs, p, history);
            |r| >= |history| && r[..|history|] == history && Spells(AllTokens(bs), |history|, r)
    decreases |bs|
  {
    BlocksKeep(bs, p, history);
    if bs != [] {
      hide ExpandBody, BlockEnd, ValidBody, Spells, TokensOf;
      var end, next := BlockEnd(bs[0], p, |history|), ExpandBody(bs[0].body, p + 3, history);
      BlocksSpell(bs[1..], end, next);
      BodySpells(bs[0].body, p + 3, history, ExpandBlocks(bs, p, history), AllTokens(bs[1..]));
    }
  }

  /** What uncompress returns for a whole stream, byte by byte. */
  lemma UncompressSpells(src: seq<byte>, offset: nat, headerSeen: bool, bs: seq<Block>, history: seq<Cell>, fuel: nat)
    requires bs != [] && AllEnoughFuel(bs, fuel)
    requires ValidBlocks(bs, Start(offset, headerSeen), history)
    requires BitsAt(src, Start(offset, headerSeen), BlocksBits(bs, Start(offset, headerSeen), history))
    requires Terminated(src, bs, Start(offset, headerSeen) + |BlocksBits(bs, Start(offset, headerSeen), history)|)
    ensures var r := Uncompress(src, offset, headerSeen, history, fuel).history;
            |r| >= |history| && r[..|history|] == history && Spells(AllTokens(bs), |history|, r)
  {
    hide *;
    RoundTrip(src, offset, headerSeen, bs, history, fuel);
    BlocksSpell(bs, Start(offset, headerSeen), history);
  }
}
