/** The DEFLATE data format as RFC 1951 prescribes it: what a compressor may write, and the
    bytes it stands for. Nothing here mentions the decoder. */
module DeflateFormat {
  import opened Numbers
  import opened BitStream
  import opened Huffman

  /* Section 3.2.5: lengths 3..258 and distances 1..32768 as a symbol and extra bits */

  const LENGTH_BASE: seq<nat> := [
    3, 4, 5, 6, 7, 8, 9, 10, 11, 13, 15, 17, 19, 23, 27, 31, 35, 43, 51, 59, 67, 83, 99, 115,
    131, 163, 195, 227, 258]

  const LENGTH_EXTRA: seq<nat> := [
    0, 0, 0, 0, 0, 0, 0, 0, 1, 1, 1, 1, 2, 2, 2, 2, 3, 3, 3, 3, 4, 4, 4, 4, 5, 5, 5, 5, 0]

  const DISTANCE_BASE: seq<nat> := [
    1, 2, 3, 4, 5, 7, 9, 13, 17, 25, 33, 49, 65, 97, 129, 193, 257, 385, 513, 769, 1025, 1537,
    2049, 3073, 4097, 6145, 8193, 12289, 16385, 24577]

  const DISTANCE_EXTRA: seq<nat> := [
    0, 0, 0, 0, 1, 1, 2, 2, 3, 3, 4, 4, 5, 5, 6, 6, 7, 7, 8, 8, 9, 9, 10, 10, 11, 11, 12, 12, 13, 13]

  const WINDOW_SIZE: nat := 32768

  /** The last entry up to i that does not exceed v. */
  function IndexFor(base: seq<nat>, v: nat, i: nat): (r: nat)
    requires i < |base| && base[0] <= v
    ensures r <= i && base[r] <= v && (r < i ==> v < base[r + 1])
  {
    if base[i] <= v then i else IndexFor(base, v, i - 1)
  }

  function LengthIndex(length: nat): (r: nat)
    requires 3 <= length <= 258
    ensures r < 29 && LENGTH_BASE[r] <= length
  {
    IndexFor(LENGTH_BASE, length, |LENGTH_BASE| - 1)
  }

  function DistanceIndex(distance: nat): (r: nat)
    requires 1 <= distance <= WINDOW_SIZE
    ensures r < 30 && DISTANCE_BASE[r] <= distance
  {
    IndexFor(DISTANCE_BASE, distance, |DISTANCE_BASE| - 1)
  }

  /* Tokens and what they stand for */

  datatype Token = Literal(value: byte) | Match(length: nat, distance: nat)

  /** Code lengths of the literal/length alphabet and of the distance alphabet. */
  datatype Codes = Codes(lit: seq<int>, dist: seq<int>)

  const END_OF_BLOCK: nat := 256

  predicate HasCode(lens: seq<int>, s: nat) {
    s < |lens| && lens[s] > 0
  }

  function FixedLength(i: nat): int {
    if i < 144 then 8 else if i < 256 then 9 else if i < 280 then 7 else 8
  }

  predicate Usable(codes: Codes) {
    && Realizable(codes.lit, MAX_BITS) && Realizable(codes.dist, MAX_BITS)
    && HasCode(codes.lit, END_OF_BLOCK)
  }

  /** A token the codes can write when `before` bytes of output precede it. */
  predicate Writable(codes: Codes, token: Token, before: nat) {
    match token
    case Literal(value) => HasCode(codes.lit, value)
    case Match(length, distance) =>
      && 3 <= length <= 258 && 1 <= distance <= WINDOW_SIZE && distance <= before
      && HasCode(codes.lit, 257 + LengthIndex(length)) && HasCode(codes.dist, DistanceIndex(distance))
  }

  /** n bytes, each copied from `distance` bytes back, so a copy may read what it wrote. */
  function Copy(history: seq<Cell>, distance: nat, n: nat): (r: seq<Cell>)
    requires 1 <= distance <= |history|
    ensures |r| == |history| + n && r[..|history|] == history
    decreases n
  {
    if n == 0 then history else Copy(history + [history[|history| - distance]], distance, n - 1)
  }

  function Size(token: Token): nat {
    if token.Literal? then 1 else token.length
  }

  function Emit(history: seq<Cell>, token: Token): (r: seq<Cell>)
    requires token.Match? ==> 1 <= token.distance <= |history|
    ensures |r| == |history| + Size(token)
  {
    match token
    case Literal(value) => history + [value]
    case Match(length, distance) => Copy(history, distance, length)
  }

  predicate AllWritable(codes: Codes, tokens: seq<Token>, before: nat) {
    tokens != [] ==>
      Writable(codes, tokens[0], before) && AllWritable(codes, tokens[1..], before + Size(tokens[0]))
  }

  /** The LZ77 expansion of the tokens after `history`. */
  function Expand(codes: Codes, history: seq<Cell>, tokens: seq<Token>): (r: seq<Cell>)
    requires AllWritable(codes, tokens, |history|)
    ensures |r| >= |history|
    decreases tokens
  {
    if tokens == [] then history else Expand(codes, Emit(history, tokens[0]), tokens[1..])
  }

  function TokenBits(codes: Codes, token: Token, before: nat): seq<bit>
    requires Writable(codes, token, before)
  {
    match token
    case Literal(value) => SymbolBits(codes.lit, value)
    case Match(length, distance) =>
      var i, j := LengthIndex(length), DistanceIndex(distance);
      SymbolBits(codes.lit, 257 + i)
      + (LsbBits(length - LENGTH_BASE[i], LENGTH_EXTRA[i])
         + (SymbolBits(codes.dist, j) + LsbBits(distance - DISTANCE_BASE[j], DISTANCE_EXTRA[j])))
  }

  function TokensBits(codes: Codes, tokens: seq<Token>, before: nat): seq<bit>
    requires HasCode(codes.lit, END_OF_BLOCK) && AllWritable(codes, tokens, before)
  {
    if tokens == [] then SymbolBits(codes.lit, END_OF_BLOCK)
    else TokenBits(codes, tokens[0], before) + TokensBits(codes, tokens[1..], before + Size(tokens[0]))
  }

  /* Section 3.2.6: the fixed codes */

  function FixedCodes(): Codes {
    Codes(seq(288, i requires i >= 0 => FixedLength(i)), Repeat(5, 32))
  }

  /* Section 3.2.7: code lengths written as runs */

  const CODE_LENGTH_ORDER: seq<nat> := [16, 17, 18, 0, 8, 7, 9, 6, 10, 5, 11, 4, 12, 3, 13, 2, 14, 1, 15]

  /** After the runs and the length 0 the lengths come from the middle outwards. */
  lemma OrderIs(k: nat)
    requires k < 8
    ensures |CODE_LENGTH_ORDER| == 19 && CODE_LENGTH_ORDER[..4] == [16, 17, 18, 0]
    ensures CODE_LENGTH_ORDER[4 + 2 * k] == 8 + k && (k < 7 ==> CODE_LENGTH_ORDER[5 + 2 * k] == 7 - k)
  {
    var order := CODE_LENGTH_ORDER;
    if k < 4 {
      assert k == 0 || k == 1 || k == 2 || k == 3;
    } else {
      assert k == 4 || k == 5 || k == 6 || k == 7;
    }
  }

  function CodeLengthSymbol(i: nat): (s: nat)
    requires i < 19
    ensures s < 19
  {
    CODE_LENGTH_ORDER[i]
  }

  datatype Run = Length(length: nat) | Again(times: nat) | Zeros(times: nat) | ManyZeros(times: nat)

  function RunSymbol(run: Run): nat {
    match run
    case Length(length) => length
    case Again(_) => 16
    case Zeros(_) => 17
    case ManyZeros(_) => 18
  }

  predicate ValidRun(clens: seq<int>, run: Run, before: nat) {
    && HasCode(clens, RunSymbol(run))
    && match run
       case Length(length) => length <= 15
       case Again(times) => 3 <= times <= 6 && before > 0
       case Zeros(times) => 3 <= times <= 10
       case ManyZeros(times) => 11 <= times <= 138
  }

  function RunSize(run: Run): nat {
    if run.Length? then 1 else run.times
  }

  function Repeat(v: int, n: nat): (r: seq<int>)
    ensures |r| == n && forall i :: 0 <= i < n ==> r[i] == v
  {
    seq(n, i => v)
  }

  function RunLengths(sofar: seq<int>, run: Run): (r: seq<int>)
    requires run.Again? ==> sofar != []
    ensures |r| == RunSize(run)
  {
    match run
    case Length(length) => [length]
    case Again(times) => Repeat(sofar[|sofar| - 1], times)
    case Zeros(times) => Repeat(0, times)
    case ManyZeros(times) => Repeat(0, times)
  }

  predicate ValidRuns(clens: seq<int>, runs: seq<Run>, before: nat) {
    runs != [] ==> ValidRun(clens, runs[0], before) && ValidRuns(clens, runs[1..], before + RunSize(runs[0]))
  }

  function Lengths(clens: seq<int>, sofar: seq<int>, runs: seq<Run>): (r: seq<int>)
    requires ValidRuns(clens, runs, |sofar|)
    ensures |r| >= |sofar| + |runs|
    decreases runs
  {
    if runs == [] then sofar else Lengths(clens, sofar + RunLengths(sofar, runs[0]), runs[1..])
  }

  function RunBits(clens: seq<int>, run: Run, before: nat): seq<bit>
    requires ValidRun(clens, run, before)
  {
    SymbolBits(clens, RunSymbol(run))
    + match run
      case Length(_) => []
      case Again(times) => LsbBits(times - 3, 2)
      case Zeros(times) => LsbBits(times - 3, 3)
      case ManyZeros(times) => LsbBits(times - 11, 7)
  }

  function RunsBits(clens: seq<int>, runs: seq<Run>, before: nat): seq<bit>
    requires ValidRuns(clens, runs, before)
  {
    if runs == [] then [] else RunBits(clens, runs[0], before) + RunsBits(clens, runs[1..], before + RunSize(runs[0]))
  }

  datatype Header = Header(codes: Codes, clens: seq<int>, hclen: nat, runs: seq<Run>)

  predicate ValidHeader(h: Header) {
    && 257 <= |h.codes.lit| <= 288 && 1 <= |h.codes.dist| <= 32 && Usable(h.codes)
    && |h.clens| == 19 && 4 <= h.hclen <= 19 && Realizable(h.clens, MAX_BITS)
    && (forall s :: 0 <= s < 19 ==> 0 <= h.clens[s] <= 7)
    && (forall i :: h.hclen <= i < 19 ==> h.clens[CodeLengthSymbol(i)] == 0)
    && ValidRuns(h.clens, h.runs, 0) && Lengths(h.clens, [], h.runs) == h.codes.lit + h.codes.dist
  }

  /** The code lengths of the code length alphabet from the i-th on, in their own order. */
  function CodeLengthBits(clens: seq<int>, hclen: nat, i: nat): seq<bit>
    requires |clens| == 19 && (forall s :: 0 <= s < 19 ==> 0 <= clens[s] <= 7) && i <= hclen <= 19
    decreases hclen - i
  {
    if i == hclen then [] else LsbBits(clens[CodeLengthSymbol(i)], 3) + CodeLengthBits(clens, hclen, i + 1)
  }

  function HeaderBits(h: Header): seq<bit>
    requires ValidHeader(h)
  {
    LsbBits(|h.codes.lit| - 257, 5)
    + (LsbBits(|h.codes.dist| - 1, 5)
       + (LsbBits(h.hclen - 4, 4)
          + (CodeLengthBits(h.clens, h.hclen, 0) + RunsBits(h.clens, h.runs, 0))))
  }

  /* Section 3.2.3: blocks */

  datatype Body =
    | Stored(pad: seq<bit>, data: seq<byte>)
    | Fixed(tokens: seq<Token>)
    | Dynamic(header: Header, tokens: seq<Token>)

  datatype Block = Block(final: bool, body: Body)

  /** Bits skipped from position p to the next byte boundary. */
  function ToBoundary(p: nat): nat {
    (8 - p % 8) % 8
  }

  /** A body that starts at bit p, after `before` bytes of output. */
  predicate ValidBody(b: Body, p: nat, before: nat) {
    match b
    case Stored(pad, data) => |pad| == ToBoundary(p) && |data| < 0x1_0000
    case Fixed(tokens) => AllWritable(FixedCodes(), tokens, before)
    case Dynamic(header, tokens) => ValidHeader(header) && AllWritable(header.codes, tokens, before)
  }

  function DataBits(data: seq<byte>): (bits: seq<bit>)
    ensures |bits| == 8 * |data|
  {
    if data == [] then [] else LsbBits(data[0], 8) + DataBits(data[1..])
  }

  function BodyType(b: Body): nat {
    match b
    case Stored(_, _) => 0
    case Fixed(_) => 1
    case Dynamic(_, _) => 2
  }

  function BodyBits(b: Body, p: nat, before: nat): seq<bit>
    requires ValidBody(b, p, before)
  {
    match b
    case Stored(pad, data) =>
      pad + (LsbBits(|data|, 16) + (LsbBits(0xffff - |data|, 16) + DataBits(data)))
    case Fixed(tokens) => TokensBits(FixedCodes(), tokens, before)
    case Dynamic(header, tokens) => HeaderBits(header) + TokensBits(header.codes, tokens, before)
  }

  function ExpandBody(b: Body, p: nat, history: seq<Cell>): (r: seq<Cell>)
    requires ValidBody(b, p, |history|)
    ensures |r| >= |history|
  {
    match b
    case Stored(_, data) => history + data
    case Fixed(tokens) => Expand(FixedCodes(), history, tokens)
    case Dynamic(header, tokens) => Expand(header.codes, history, tokens)
  }

  /** The final flag and the block type precede the body. */
  function BlockBits(b: Block, p: nat, before: nat): seq<bit>
    requires ValidBody(b.body, p + 3, before)
  {
    [if b.final then 1 else 0] + (LsbBits(BodyType(b.body), 2) + BodyBits(b.body, p + 3, before))
  }

  function BlockEnd(b: Block, p: nat, before: nat): nat
    requires ValidBody(b.body, p + 3, before)
  {
    p + |BlockBits(b, p, before)|
  }

  /* A stream is a series of blocks of which only the last may be final */

  predicate ValidBlocks(bs: seq<Block>, p: nat, history: seq<Cell>)
    decreases |bs|
  {
    bs != [] ==>
      && ValidBody(bs[0].body, p + 3, |history|)
      && (bs[0].final ==> |bs| == 1)
      && ValidBlocks(bs[1..], BlockEnd(bs[0], p, |history|), ExpandBody(bs[0].body, p + 3, history))
  }

  function BlocksBits(bs: seq<Block>, p: nat, history: seq<Cell>): seq<bit>
    requires ValidBlocks(bs, p, history)
    decreases |bs|
  {
    if bs == [] then []
    else BlockBits(bs[0], p, |history|)
         + BlocksBits(bs[1..], BlockEnd(bs[0], p, |history|), ExpandBody(bs[0].body, p + 3, history))
  }

  function ExpandBlocks(bs: seq<Block>, p: nat, history: seq<Cell>): (r: seq<Cell>)
    requires ValidBlocks(bs, p, history)
    ensures |r| >= |history|
    decreases |bs|
  {
    if bs == [] then history
    else ExpandBlocks(bs[1..], BlockEnd(bs[0], p, |history|), ExpandBody(bs[0].body, p + 3, history))
  }

  /** Where the first k blocks end. */
  function EndOf(bs: seq<Block>, p: nat, history: seq<Cell>, k: nat): nat
    requires ValidBlocks(bs, p, history) && k <= |bs|
    decreases |bs|
  {
    if k == 0 || bs == [] then p
    else EndOf(bs[1..], BlockEnd(bs[0], p, |history|), ExpandBody(bs[0].body, p + 3, history), k - 1)
  }

  /** What they expand to. */
  function ExpandFirst(bs: seq<Block>, p: nat, history: seq<Cell>, k: nat): seq<Cell>
    requires ValidBlocks(bs, p, history) && k <= |bs|
    decreases |bs|
  {
    if k == 0 || bs == [] then history
    else ExpandFirst(bs[1..], BlockEnd(bs[0], p, |history|), ExpandBody(bs[0].body, p + 3, history), k - 1)
  }
}
