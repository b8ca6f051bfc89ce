/** Token types and the hash preimages of coins. */
module CoinStructure {
  import opened Bytes
  import opened FieldCodec
  import opened Options

  datatype TokenType = Unshielded(raw: Hash) | Shielded(raw: Hash) | Dust

  /** The all-zero hash. */
  const BLANK: Hash := [0, 0, 0, 0, 0, 0, 0, 0, 0, 0, 0, 0, 0, 0, 0, 0, 0, 0, 0, 0, 0, 0, 0, 0, 0, 0, 0, 0, 0, 0, 0, 0]

  // ----- Field representation of token types -----

  function EncodeToken(t: TokenType): (r: seq<Fr>)
    ensures |r| == 5
  {
    match t
    case Shielded(h) => [1] + HashToFields(h) + HashToFields(BLANK)
    case Unshielded(h) => [0] + HashToFields(BLANK) + HashToFields(h)
    case Dust => [2] + HashToFields(BLANK) + HashToFields(BLANK)
  }

  /** A discriminator, then two hashes of which the unused ones must be blank. */
  function DecodeToken(fields: seq<Fr>): Option<TokenType> {
    if |fields| != 5 then None
    else match FieldToUnsigned(fields[0], W8)
      case None => None
      case Some(variant) =>
        var first, second := FieldsToHash(fields[1..3]), FieldsToHash(fields[3..]);
        if variant == 1 then
          if first.None? || second != Some(BLANK) then None else Some(Shielded(first.value))
        else if variant == 0 then
          if first != Some(BLANK) || second.None? then None else Some(Unshielded(second.value))
        else if variant == 2 then
          if first != Some(BLANK) || second != Some(BLANK) then None else Some(Dust)
        else None
  }

  lemma HashCodec(repr: seq<Fr>, h: Hash)
    requires |repr| == 2
    ensures FieldsToHash(repr) == Some(h) <==> HashToFields(h) == repr
  {
    HashRoundTrip(h);
    if FieldsToHash(repr).Some? { FieldsRoundTrip(repr); }
  }

  lemma TokenParts(repr: seq<Fr>, tag: Fr, x: Hash, y: Hash)
    requires |repr| == 5
    ensures [tag] + HashToFields(x) + HashToFields(y) == repr
            <==> repr[0] == tag && FieldsToHash(repr[1..3]) == Some(x) && FieldsToHash(repr[3..]) == Some(y)
  {
    HashCodec(repr[1..3], x);
    HashCodec(repr[3..], y);
    var e := [tag] + HashToFields(x) + HashToFields(y);
    assert e[1..3] == HashToFields(x) && e[3..] == HashToFields(y);
    assert repr == [repr[0]] + repr[1..3] + repr[3..];
  }

  lemma ShieldedCodec(repr: seq<Fr>, h: Hash)
    requires |repr| == 5
    ensures DecodeToken(repr) == Some(Shielded(h)) <==> EncodeToken(Shielded(h)) == repr
  {
    TokenParts(repr, 1, h, BLANK);
  }

  lemma UnshieldedCodec(repr: seq<Fr>, h: Hash)
    requires |repr| == 5
    ensures DecodeToken(repr) == Some(Unshielded(h)) <==> EncodeToken(Unshielded(h)) == repr
  {
    TokenParts(repr, 0, BLANK, h);
  }

  lemma DustCodec(repr: seq<Fr>)
    requires |repr| == 5
    ensures DecodeToken(repr) == Some(Dust) <==> EncodeToken(Dust) == repr
  {
    TokenParts(repr, 2, BLANK, BLANK);
  }

  /** Fields decode to exactly the token type that encodes to them. */
  lemma TokenCodec(repr: seq<Fr>, t: TokenType)
    ensures DecodeToken(repr) == Some(t) <==> EncodeToken(t) == repr
  {
    if |repr| == 5 {
      match t {
        case Shielded(h) => ShieldedCodec(repr, h);
        case Unshielded(h) => UnshieldedCodec(repr, h);
        case Dust => DustCodec(repr);
      }
    }
  }

  // ----- Binary representation of token types -----

  function BinaryToken(t: TokenType): seq<Byte> {
    match t
    case Unshielded(h) => [0] + h
    case Shielded(h) => [1] + h
    case Dust => [2]
  }

  function BinaryTokens(ts: seq<TokenType>): seq<Byte> {
    if ts == [] then [] else BinaryToken(ts[0]) + BinaryTokens(ts[1..])
  }

  /** No encoding is a prefix of another: what follows one can never change what it is. */
  lemma TokensPrefixFree(a: TokenType, b: TokenType, x: seq<Byte>, y: seq<Byte>)
    requires BinaryToken(a) + x == BinaryToken(b) + y
    ensures a == b && x == y
  {
    var m, n := BinaryToken(a), BinaryToken(b);
    assert (m + x)[0] == m[0] && (n + y)[0] == n[0];
    SplitEqual(m, n, x, y);
    assert a.Dust? || (m[1..] == a.raw && n[1..] == b.raw);
  }

  lemma SplitEqual(a: seq<Byte>, b: seq<Byte>, x: seq<Byte>, y: seq<Byte>)
    requires |a| == |b| && a + x == b + y
    ensures a == b && x == y
  {
    assert a == (a + x)[..|a|] && b == (b + y)[..|b|];
    assert x == (a + x)[|a|..] && y == (b + y)[|b|..];
  }

  lemma TokensCons(ts: seq<TokenType>)
    requires ts != []
    ensures BinaryTokens(ts) == BinaryToken(ts[0]) + BinaryTokens(ts[1..]) && BinaryTokens(ts) != []
  {}

  lemma ConsEqual(a: seq<TokenType>, b: seq<TokenType>)
    requires a != [] && b != [] && a[0] == b[0] && a[1..] == b[1..]
    ensures a == b
  {
    assert a == [a[0]] + a[1..] && b == [b[0]] + b[1..];
  }

  /** Concatenated token types decode uniquely. */
  lemma {:induction false} TokenSequencesUnique(a: seq<TokenType>, b: seq<TokenType>)
    requires BinaryTokens(a) == BinaryTokens(b)
    ensures a == b
    decreases |a|
  {
    if a != [] { TokensCons(a); }
    if b != [] { TokensCons(b); }
    if a != [] && b != [] {
      TokensPrefixFree(a[0], b[0], BinaryTokens(a[1..]), BinaryTokens(b[1..]));
      TokenSequencesUnique(a[1..], b[1..]);
      ConsEqual(a, b);
    }
  }

  // ----- Preimages -----

  type Amount = x: int | 0 <= x < 0x1_0000_0000_0000_0000_0000_0000_0000_0000

  datatype Info = Info(nonce: Hash, tokenType: Hash, amount: Amount)

  /** Who receives a coin. */
  datatype Recipient = ToUser(key: Hash) | ToContract(address: Hash)

  /** What authorises spending a coin. */
  datatype SenderEvidence = BySecret(key: Hash) | ByContract(address: Hash)

  /** The ASCII domain separators `midnight:zswap-cc[v1]`, `-cn` and `-pk`. */
  function Separator(kind: seq<Byte>): seq<Byte> {
    [109, 105, 100, 110, 105, 103, 104, 116, 58, 122, 115, 119, 97, 112, 45] + kind + [91, 118, 49, 93]
  }

  const COMMITMENT: seq<Byte> := Separator([99, 99])
  const NULLIFIER: seq<Byte> := Separator([99, 110])
  const PUBLIC_KEY: seq<Byte> := Separator([112, 107])

  function InfoBytes(i: Info): (b: seq<Byte>)
    ensures |b| == 80
  {
    i.nonce + i.tokenType + ToLe(i.amount, 16)
  }

  function RecipientBytes(r: Recipient): (b: seq<Byte>)
    ensures |b| == 33
  {
    match r case ToUser(k) => [1] + k case ToContract(a) => [0] + a
  }

  function EvidenceBytes(e: SenderEvidence): (b: seq<Byte>)
    ensures |b| == 33
  {
    match e case BySecret(k) => [1] + k case ByContract(a) => [0] + a
  }

  function CommitmentPreimage(i: Info, r: Recipient): seq<Byte> { COMMITMENT + (InfoBytes(i) + RecipientBytes(r)) }

  function NullifierPreimage(i: Info, e: SenderEvidence): seq<Byte> { NULLIFIER + (InfoBytes(i) + EvidenceBytes(e)) }

  function PublicKeyPreimage(key: Hash): seq<Byte> { PUBLIC_KEY + key }

  /** Appending piece by piece is appending the whole. */
  lemma Appended(start: seq<Byte>, a: seq<Byte>, b: seq<Byte>, c: seq<Byte>, tag: Byte, rest: seq<Byte>)
    ensures start + a + b + c + [tag] + rest == start + ((a + b + c) + ([tag] + rest))
  {}

  /** The data a commitment hashes, appended piece by piece. */
  method CommitmentData(i: Info, r: Recipient) returns (data: seq<Byte>)
    ensures data == CommitmentPreimage(i, r) && |data| == 134
  {
    data := COMMITMENT;
    data := data + i.nonce;
    data := data + i.tokenType;
    data := data + ToLe(i.amount, 16);
    match r {
      case ToUser(k) =>
        Appended(COMMITMENT, i.nonce, i.tokenType, ToLe(i.amount, 16), 1, k);
        data := data + [1] + k;
      case ToContract(a) =>
        Appended(COMMITMENT, i.nonce, i.tokenType, ToLe(i.amount, 16), 0, a);
        data := data + [0] + a;
    }
  }

  /** The data a nullifier hashes, appended piece by piece. */
  method NullifierData(i: Info, e: SenderEvidence) returns (data: seq<Byte>)
    ensures data == NullifierPreimage(i, e) && |data| == 134
  {
    data := NULLIFIER;
    data := data + i.nonce;
    data := data + i.tokenType;
    data := data + ToLe(i.amount, 16);
    match e {
      case BySecret(k) =>
        Appended(NULLIFIER, i.nonce, i.tokenType, ToLe(i.amount, 16), 1, k);
        data := data + [1] + k;
      case ByContract(a) =>
        Appended(NULLIFIER, i.nonce, i.tokenType, ToLe(i.amount, 16), 0, a);
        data := data + [0] + a;
    }
  }

  lemma InfoInjective(i: Info, j: Info)
    requires InfoBytes(i) == InfoBytes(j)
    ensures i == j
  {
    SplitEqual(i.nonce + i.tokenType, j.nonce + j.tokenType, ToLe(i.amount, 16), ToLe(j.amount, 16));
    SplitEqual(i.nonce, j.nonce, i.tokenType, j.tokenType);
    Pow256Values();
    FromToLe(i.amount, 16);
    FromToLe(j.amount, 16);
  }

  lemma TaggedInjective(a: Byte, b: Byte, x: Hash, y: Hash)
    requires [a] + x == [b] + y
    ensures a == b && x == y
  {
    SplitEqual([a], [b], x, y);
  }

  /** Commitment preimages determine the coin and the recipient. */
  lemma CommitmentInjective(i: Info, r: Recipient, j: Info, s: Recipient)
    requires CommitmentPreimage(i, r) == CommitmentPreimage(j, s)
    ensures i == j && r == s
  {
    SplitEqual(COMMITMENT, COMMITMENT, InfoBytes(i) + RecipientBytes(r), InfoBytes(j) + RecipientBytes(s));
    SplitEqual(InfoBytes(i), InfoBytes(j), RecipientBytes(r), RecipientBytes(s));
    InfoInjective(i, j);
    TaggedInjective(if r.ToUser? then 1 else 0, if s.ToUser? then 1 else 0,
                    if r.ToUser? then r.key else r.address, if s.ToUser? then s.key else s.address);
  }

  /** Nullifier preimages determine the coin and the evidence. */
  lemma NullifierInjective(i: Info, e: SenderEvidence, j: Info, f: SenderEvidence)
    requires NullifierPreimage(i, e) == NullifierPreimage(j, f)
    ensures i == j && e == f
  {
    SplitEqual(NULLIFIER, NULLIFIER, InfoBytes(i) + EvidenceBytes(e), InfoBytes(j) + EvidenceBytes(f));
    SplitEqual(InfoBytes(i), InfoBytes(j), EvidenceBytes(e), EvidenceBytes(f));
    InfoInjective(i, j);
    TaggedInjective(if e.BySecret? then 1 else 0, if f.BySecret? then 1 else 0,
                    if e.BySecret? then e.key else e.address, if f.BySecret? then f.key else f.address);
  }

  lemma SeparatorsApart(k: seq<Byte>, l: seq<Byte>, x: seq<Byte>, y: seq<Byte>)
    requires |k| == |l| == 2 && k != l
    ensures Separator(k) + x != Separator(l) + y
  {
    assert (Separator(k) + x)[15..17] == k;
    assert (Separator(l) + y)[15..17] == l;
  }

  /** Commitments, nullifiers and public keys never hash the same data. */
  lemma DomainsApart(i: Info, r: Recipient, j: Info, e: SenderEvidence, key: Hash)
    ensures CommitmentPreimage(i, r) != NullifierPreimage(j, e)
    ensures CommitmentPreimage(i, r) != PublicKeyPreimage(key)
    ensures NullifierPreimage(j, e) != PublicKeyPreimage(key)
  {
    var x, y := InfoBytes(i) + RecipientBytes(r), InfoBytes(j) + EvidenceBytes(e);
    SeparatorsApart([99, 99], [99, 110], x, y);
    SeparatorsApart([99, 99], [112, 107], x, key);
    SeparatorsApart([99, 110], [112, 107], y, key);
  }

  // ----- Layouts -----

  lemma {:induction false} ZerosAreNothing(b: seq<Byte>)
    requires forall i :: 0 <= i < |b| ==> b[i] == 0
    ensures FromLe(b) == 0
  {
    if b != [] { ZerosAreNothing(b[1..]); }
  }

  lemma BlankFields()
    ensures HashToFields(BLANK) == [0, 0]
  {
    ZerosAreNothing(BLANK[..31]);
  }

  /** Token types as fields: a tag, then a hash at the place its kind says and zeros everywhere else. */
  lemma TokenLayout(t: TokenType)
    ensures var r := EncodeToken(t);
            match t
            case Unshielded(h) => r[0] == 0 && r[1..3] == [0, 0] && r[3..] == HashToFields(h)
            case Shielded(h) => r[0] == 1 && r[1..3] == HashToFields(h) && r[3..] == [0, 0]
            case Dust => r == [2, 0, 0, 0, 0]
  {
    BlankFields();
  }

  /** Token types as bytes: a tag, then the hash if there is one. */
  lemma BinaryLayout(t: TokenType)
    ensures var b := BinaryToken(t);
            match t
            case Unshielded(h) => |b| == 33 && b[0] == 0 && b[1..] == h
            case Shielded(h) => |b| == 33 && b[0] == 1 && b[1..] == h
            case Dust => b == [2]
  {}

  /** The codes of a text. */
  function Ascii(s: string): seq<Byte> {
    seq(|s|, i requires 0 <= i < |s| => if s[i] as int < 128 then s[i] as int else 0)
  }

  lemma CommitmentText()
    ensures COMMITMENT == Ascii("midnight:zswap-cc[v1]")
  {}

  lemma NullifierText()
    ensures NULLIFIER == Ascii("midnight:zswap-cn[v1]")
  {}

  lemma PublicKeyText()
    ensures PUBLIC_KEY == Ascii("midnight:zswap-pk[v1]")
  {}

  /** A coin inside a preimage: nonce, token type and a little-endian amount, then who it is tied to. */
  ghost predicate LaidOut(b: seq<Byte>, text: string, i: Info, user: bool, who: Hash) {
    && |text| == 21 && |b| == 134 && b[..21] == Ascii(text)
    && b[21..53] == i.nonce && b[53..85] == i.tokenType && FromLe(b[85..101]) == i.amount
    && b[101] == (if user then 1 else 0) && b[102..] == who
  }

  lemma Pieces(s: seq<Byte>, x: seq<Byte>, y: seq<Byte>, z: seq<Byte>, tag: Byte, w: seq<Byte>)
    requires |s| == 21 && |x| == |y| == 32 && |z| == 16 && |w| == 32
    ensures var b := s + ((x + y + z) + ([tag] + w));
            && |b| == 134 && b[..21] == s && b[21..53] == x && b[53..85] == y && b[85..101] == z
            && b[101] == tag && b[102..] == w
  {}

  lemma AmountReads(n: Amount)
    ensures FromLe(ToLe(n, 16)) == n
  {
    Pow256Values();
    FromToLe(n, 16);
  }

  lemma InfoLayout(start: seq<Byte>, i: Info, tag: Byte, who: Hash)
    requires |start| == 21
    ensures var b := start + (InfoBytes(i) + ([tag] + who));
            && |b| == 134 && b[..21] == start && b[21..53] == i.nonce && b[53..85] == i.tokenType
            && FromLe(b[85..101]) == i.amount && b[101] == tag && b[102..] == who
  {
    Pieces(start, i.nonce, i.tokenType, ToLe(i.amount, 16), tag, who);
    AmountReads(i.amount);
  }

  lemma CommitmentLayout(i: Info, r: Recipient)
    ensures LaidOut(CommitmentPreimage(i, r), "midnight:zswap-cc[v1]", i, r.ToUser?,
                    match r case ToUser(k) => k case ToContract(a) => a)
  {
    CommitmentText();
    match r
    case ToUser(k) => InfoLayout(COMMITMENT, i, 1, k);
    case ToContract(a) => InfoLayout(COMMITMENT, i, 0, a);
  }

  lemma NullifierLayout(i: Info, e: SenderEvidence)
    ensures LaidOut(NullifierPreimage(i, e), "midnight:zswap-cn[v1]", i, e.BySecret?,
                    match e case BySecret(k) => k case ByContract(a) => a)
  {
    NullifierText();
    match e
    case BySecret(k) => InfoLayout(NULLIFIER, i, 1, k);
    case ByContract(a) => InfoLayout(NULLIFIER, i, 0, a);
  }

  lemma PublicKeyLayout(key: Hash)
    ensures |PublicKeyPreimage(key)| == 53 && PublicKeyPreimage(key)[..21] == Ascii("midnight:zswap-pk[v1]")
    ensures PublicKeyPreimage(key)[21..] == key
  {
    PublicKeyText();
  }
}
