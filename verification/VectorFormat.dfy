/** The storage format of embedding vectors: four bytes per component, least significant byte first. */
module VectorFormat {

  datatype Result<+T> = Ok(value: T) | Err(error: Error)

  datatype Error = Overflow | BadLength

  type Byte = b: int | 0 <= b < 0x100
  type Word = w: int | 0 <= w < 0x1_0000_0000

  function WordBytes(w: Word): seq<Byte> {
    [w % 0x100, w / 0x100 % 0x100, w / 0x1_0000 % 0x100, w / 0x100_0000]
  }

  function BytesWord(b: seq<Byte>): Word
    requires |b| == 4
  {
    var b0: int, b1: int, b2: int, b3: int := b[0], b[1], b[2], b[3];
    b0 + b1 * 0x100 + b2 * 0x1_0000 + b3 * 0x100_0000
  }

  function PackWords(ws: seq<Word>): seq<Byte> {
    if ws == [] then [] else WordBytes(ws[0]) + PackWords(ws[1..])
  }

  /** A length that is no multiple of four is refused. */
  function UnpackWords(blob: seq<Byte>): Result<seq<Word>> {
    if blob == [] then Ok([])
    else if |blob| < 4 then Err(BadLength)
    else
      match UnpackWords(blob[4..])
      case Err(e) => Err(e)
      case Ok(ws) => Ok([BytesWord(blob[..4])] + ws)
  }

  lemma {:induction false} WordRoundTrip(w: Word)
    ensures BytesWord(WordBytes(w)) == w
  {
    var n: int := w;
    var h, m, l := n / 0x100_0000, n / 0x1_0000, n / 0x100;
    assert n == l * 0x100 + n % 0x100;
    assert l == m * 0x100 + l % 0x100;
    assert m == h * 0x100 + m % 0x100;
  }

  lemma {:induction false} BytesRoundTrip(b: seq<Byte>)
    requires |b| == 4
    ensures WordBytes(BytesWord(b)) == b
  {
    var b0: int, b1: int, b2: int, b3: int := b[0], b[1], b[2], b[3];
    var n: int := BytesWord(b);
    assert n / 0x100 == b1 + b2 * 0x100 + b3 * 0x1_0000;
    assert n / 0x1_0000 == b2 + b3 * 0x100;
    assert n / 0x100_0000 == b3;
  }

  lemma {:induction false} PackLength(ws: seq<Word>)
    ensures |PackWords(ws)| == 4 * |ws|
  {
    if ws == [] {
    } else {
      PackLength(ws[1..]);
    }
  }

  function Power256(j: nat): (p: nat)
    ensures p >= 1
  {
    if j == 0 then 1 else 0x100 * Power256(j - 1)
  }

  lemma Powers()
    ensures Power256(0) == 1 && Power256(1) == 0x100 && Power256(2) == 0x1_0000 && Power256(3) == 0x100_0000
  {
  }

  /** Byte j of word i is its digit for 256 to the j: the least significant byte comes first. */
  lemma {:induction false} PackedAt(ws: seq<Word>, i: nat, j: nat)
    requires i < |ws| && j < 4
    ensures |PackWords(ws)| == 4 * |ws| && PackWords(ws)[4 * i + j] == ws[i] / Power256(j) % 0x100
  {
    PackLength(ws);
    PackLength(ws[1..]);
    if i == 0 {
      Powers();
      hide Power256;
      assert j == 0 || j == 1 || j == 2 || j == 3;
      assert ws[0] / 0x100_0000 < 0x100;
      assert PackWords(ws)[j] == WordBytes(ws[0])[j];
    } else {
      hide WordBytes, Power256;
      PackedAt(ws[1..], i - 1, j);
      assert PackWords(ws)[4 * i + j] == PackWords(ws[1..])[4 * (i - 1) + j];
    }
  }

  lemma {:induction false} PackAppend(a: seq<Word>, b: seq<Word>)
    ensures PackWords(a + b) == PackWords(a) + PackWords(b)
  {
    if a == [] {
      assert a + b == b;
    } else {
      assert (a + b)[1..] == a[1..] + b;
      PackAppend(a[1..], b);
    }
  }

  lemma {:induction false} UnpackPack(ws: seq<Word>)
    ensures UnpackWords(PackWords(ws)) == Ok(ws)
  {
    if ws == [] {
    } else {
      UnpackPack(ws[1..]);
      WordRoundTrip(ws[0]);
      var blob := PackWords(ws);
      assert ws == [ws[0]] + ws[1..];
      assert blob[..4] == WordBytes(ws[0]) && blob[4..] == PackWords(ws[1..]);
    }
  }

  lemma UnpackStep(blob: seq<Byte>)
    requires |blob| >= 4
    ensures UnpackWords(blob).Ok? <==> UnpackWords(blob[4..]).Ok?
    ensures UnpackWords(blob).Err? ==> UnpackWords(blob) == Err(UnpackWords(blob[4..]).error)
    ensures UnpackWords(blob).Ok? ==> UnpackWords(blob).value == [BytesWord(blob[..4])] + UnpackWords(blob[4..]).value
    ensures |blob| % 4 == |blob[4..]| % 4
  {
  }

  lemma UnpackShort(blob: seq<Byte>)
    requires |blob| < 4
    ensures UnpackWords(blob) == if blob == [] then Ok([]) else Err(BadLength)
    ensures PackWords([]) == []
  {
  }

  /** Unpacking succeeds exactly on multiples of four bytes, and packing gives the bytes back. */
  lemma {:induction false} PackUnpack(blob: seq<Byte>)
    ensures |blob| % 4 != 0 ==> UnpackWords(blob) == Err(BadLength)
    ensures |blob| % 4 == 0 ==> UnpackWords(blob).Ok?
    ensures UnpackWords(blob).Ok? ==> PackWords(UnpackWords(blob).value) == blob
  {
    hide WordBytes, BytesWord, UnpackWords;
    if |blob| < 4 {
      UnpackShort(blob);
    } else {
      UnpackStep(blob);
      PackUnpack(blob[4..]);
      BytesRoundTrip(blob[..4]);
      if UnpackWords(blob[4..]).Ok? {
        var ws := UnpackWords(blob[4..]).value;
        assert ([BytesWord(blob[..4])] + ws)[1..] == ws;
        assert blob == blob[..4] + blob[4..];
      }
    }
  }

  /** The conversion between program floats and single-precision words; rounding up may overflow. */
  datatype Codec<!F> = Codec(toWord: F -> Result<Word>, fromWord: Word -> F)

  function PackEmbedding<F>(codec: Codec<F>, vector: seq<F>): Result<seq<Byte>> {
    if vector == [] then Ok([])
    else
      match codec.toWord(vector[0])
      case Err(e) => Err(e)
      case Ok(w) =>
        match PackEmbedding(codec, vector[1..])
        case Err(e) => Err(e)
        case Ok(rest) => Ok(WordBytes(w) + rest)
  }

  function Decoded<F>(codec: Codec<F>, ws: seq<Word>): seq<F> {
    if ws == [] then [] else [codec.fromWord(ws[0])] + Decoded(codec, ws[1..])
  }

  function UnpackEmbedding<F>(codec: Codec<F>, blob: seq<Byte>): Result<seq<F>> {
    match UnpackWords(blob)
    case Err(e) => Err(e)
    case Ok(ws) => Ok(Decoded(codec, ws))
  }

  /** The value survives the rounding to single precision. */
  ghost predicate Representable<F>(codec: Codec<F>, x: F) {
    codec.toWord(x).Ok? && codec.fromWord(codec.toWord(x).value) == x
  }

  /** The bit pattern is the one its value is converted back to (not so for every NaN). */
  ghost predicate Canonical<F>(codec: Codec<F>, w: Word) {
    codec.toWord(codec.fromWord(w)) == Ok(w)
  }

  /** Packing goes component by component, and fails exactly if some component does. */
  lemma {:induction false} PackEmbeddingIsWords<F>(codec: Codec<F>, vector: seq<F>) returns (ws: seq<Word>)
    ensures PackEmbedding(codec, vector).Ok? <==> forall i | 0 <= i < |vector| :: codec.toWord(vector[i]).Ok?
    ensures PackEmbedding(codec, vector).Ok? ==>
              && |ws| == |vector|
              && PackEmbedding(codec, vector) == Ok(PackWords(ws))
              && forall i | 0 <= i < |ws| :: codec.toWord(vector[i]) == Ok(ws[i])
  {
    ws := [];
    if vector == [] {
    } else {
      var rest := PackEmbeddingIsWords(codec, vector[1..]);
      assert vector == [vector[0]] + vector[1..];
      assert forall i | 0 <= i < |vector| - 1 :: vector[1..][i] == vector[i + 1];
      if PackEmbedding(codec, vector).Ok? {
        ws := [codec.toWord(vector[0]).value] + rest;
        assert ws[1..] == rest;
      }
      if forall i | 0 <= i < |vector| :: codec.toWord(vector[i]).Ok? {
        assert forall i | 0 <= i < |vector[1..]| :: codec.toWord(vector[1..][i]).Ok?;
      }
    }
  }

  /** A vector that cannot be packed fails with the error of its first component that has one. */
  lemma {:induction false} PackFails<F>(codec: Codec<F>, vector: seq<F>, i: nat)
    requires i < |vector| && codec.toWord(vector[i]).Err? && forall j | 0 <= j < i :: codec.toWord(vector[j]).Ok?
    ensures PackEmbedding(codec, vector) == Err(codec.toWord(vector[i]).error)
  {
    if i == 0 {
    } else {
      assert forall j | 0 <= j < i - 1 :: vector[1..][j] == vector[j + 1];
      PackFails(codec, vector[1..], i - 1);
      assert codec.toWord(vector[0]).Ok?;
    }
  }

  lemma {:induction false} DecodedAt<F>(codec: Codec<F>, ws: seq<Word>)
    ensures |Decoded(codec, ws)| == |ws|
    ensures forall i | 0 <= i < |ws| :: Decoded(codec, ws)[i] == codec.fromWord(ws[i])
  {
    if ws == [] {
    } else {
      DecodedAt(codec, ws[1..]);
    }
  }

  /** A packed vector is read back unchanged exactly when each of its components is representable. */
  lemma {:induction false} VectorRoundTripIff<F>(codec: Codec<F>, vector: seq<F>)
    requires PackEmbedding(codec, vector).Ok?
    ensures |PackEmbedding(codec, vector).value| == 4 * |vector|
    ensures UnpackEmbedding(codec, PackEmbedding(codec, vector).value) == Ok(vector)
       <==> forall i | 0 <= i < |vector| :: Representable(codec, vector[i])
  {
    var ws := PackEmbeddingIsWords(codec, vector);
    PackLength(ws);
    UnpackPack(ws);
    DecodedAt(codec, ws);
    var back := Decoded(codec, ws);
    if back == vector {
      forall i | 0 <= i < |vector|
        ensures Representable(codec, vector[i])
      {
        assert back[i] == vector[i];
      }
    }
  }

  /** A blob that unpacks is packed to the same bytes exactly when each of its words is canonical. */
  lemma {:induction false} BlobRoundTripIff<F>(codec: Codec<F>, blob: seq<Byte>)
    ensures |blob| % 4 != 0 ==> UnpackEmbedding(codec, blob) == Err(BadLength)
    ensures |blob| % 4 == 0 ==> UnpackEmbedding(codec, blob).Ok? && UnpackWords(blob).Ok?
    ensures |blob| % 4 == 0 ==>
      (PackEmbedding(codec, UnpackEmbedding(codec, blob).value) == Ok(blob)
       <==> forall i | 0 <= i < |UnpackWords(blob).value| :: Canonical(codec, UnpackWords(blob).value[i]))
  {
    PackUnpack(blob);
    if |blob| % 4 != 0 {
      return;
    }
    var words := UnpackWords(blob).value;
    var vector := Decoded(codec, words);
    DecodedAt(codec, words);
    var ws := PackEmbeddingIsWords(codec, vector);
    if PackEmbedding(codec, vector) == Ok(blob) {
      UnpackPack(ws);
      assert ws == words;
    }
    if forall i | 0 <= i < |words| :: Canonical(codec, words[i]) {
      assert forall i | 0 <= i < |vector| :: codec.toWord(vector[i]) == Ok(words[i]);
      assert ws == words;
    }
  }

  /** Different words, different bytes. */
  lemma {:induction false} PackInjective(a: seq<Word>, b: seq<Word>)
    requires PackWords(a) == PackWords(b)
    ensures a == b
  {
    UnpackPack(a);
    UnpackPack(b);
  }
}
