/**
 * Shared vocabulary of the model: error wrappers, the abstraction of an
 * ElGamal ciphertext by the integer it encrypts, signatures and the
 * request to build a range proof.
 */
module Common {

  datatype Option<T> = None | Some(value: T)

  /** An operation that either yields a value or fails with a message. */
  datatype Result<T> = Ok(value: T) | Err(msg: string)

  /**
   * A curve point or scalar of the cryptographic library. Its value never
   * matters to the plaintext layer, so it is an opaque integer.
   */
  type Point = int

  /**
   * A ciphertext, abstracted by the plaintext it decrypts to: encryption
   * is the constructor, decryption is the field `plain`.
   */
  datatype CipherText = CipherText(plain: int)

  /** Homomorphic addition: the sum of two ciphertexts decrypts to the sum. */
  function AddCipher(a: CipherText, b: CipherText): (c: CipherText)
    ensures c.plain - b.plain == a.plain
  {
    CipherText(a.plain + b.plain)
  }

  /** Element-wise homomorphic addition of two ciphertext vectors. */
  function AddCipherVectors(a: seq<CipherText>, b: seq<CipherText>): (c: seq<CipherText>)
    requires |a| == |b|
    ensures |c| == |a|
    ensures forall i :: 0 <= i < |c| ==> c[i].plain == a[i].plain + b[i].plain
  {
    seq(|a|, i requires 0 <= i < |a| => AddCipher(a[i], b[i]))
  }

  /** The plaintexts of a ciphertext vector, in order. */
  function Plains(c: seq<CipherText>): (r: seq<int>)
    ensures |r| == |c|
    ensures forall i :: 0 <= i < |c| ==> r[i] == c[i].plain
  {
    seq(|c|, i requires 0 <= i < |c| => c[i].plain)
  }

  /** The encryption of every value of a plaintext vector, in order. */
  function EncryptAll(v: seq<int>): (c: seq<CipherText>)
    ensures Plains(c) == v
  {
    seq(|v|, i requires 0 <= i < |v| => CipherText(v[i]))
  }

  /** Integer division as Go computes it: the quotient is truncated toward zero. */
  function TruncDiv(a: int, b: int): (q: int)
    requires b != 0
    ensures a >= 0 && b > 0 ==> q == a / b
  {
    if a >= 0 then a / b else -((-a) / b)
  }

  /** A data provider's signature set published by one verifying node. */
  datatype PublishSignature = PublishSignature(public: Point, signature: seq<Point>)

  /**
   * The bounds of a range proof: the secret is proved to have at most `l`
   * digits in base `u`. The source stores them as a two-element slice
   * `[u, l]`.
   */
  datatype RangeBound = RangeBound(u: int, l: int)

  /**
   * Everything a data provider hands to range-proof creation for one value.
   * The encryption randomness and the public key are cryptographic and left out.
   */
  datatype CreateProof = CreateProof(sigs: seq<PublishSignature>, u: int, l: int, secret: int, cipher: CipherText)

  /** A node of the network: its address and its public key. */
  datatype ServerIdentity = ServerIdentity(address: string, public: Point)

  /**
   * The statement of a query: the operation's name, how many input
   * columns it reads and how many values it outputs, and the value range
   * [queryMin, queryMax] of the attribute. The logistic-regression
   * parameters are not part of this model.
   */
  datatype Operation = Operation(nameOp: string, nbrInput: int, nbrOutput: int, queryMin: int, queryMax: int)

  /** The operation names the query statement, the encoder and the decoder switch on. */
  datatype OpKind = SumOp | CosimOp | MeanOp | VarianceOp | LinRegOp | FreqCountOp | BoolAndOp | BoolOrOp
                  | MinOp | MaxOp | UnionOp | InterOp | MLevalOp | LogRegOp | UnknownOp

  function Kind(name: string): (k: OpKind)
    ensures k == UnknownOp <==> name !in {"sum", "cosim", "mean", "variance", "lin_reg", "frequencyCount", "bool_AND",
                                         "bool_OR", "min", "max", "union", "inter", "MLeval", "logreg"}
  {
    if name == "sum" then SumOp
    else if name == "cosim" then CosimOp
    else if name == "mean" then MeanOp
    else if name == "variance" then VarianceOp
    else if name == "lin_reg" then LinRegOp
    else if name == "frequencyCount" then FreqCountOp
    else if name == "bool_AND" then BoolAndOp
    else if name == "bool_OR" then BoolOrOp
    else if name == "min" then MinOp
    else if name == "max" then MaxOp
    else if name == "union" then UnionOp
    else if name == "inter" then InterOp
    else if name == "MLeval" then MLevalOp
    else if name == "logreg" then LogRegOp
    else UnknownOp
  }
}
