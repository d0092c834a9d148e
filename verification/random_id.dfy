/** `randomID(len)` of `src/lib/utils.ts`: `len` characters drawn from a
    fixed 62-character alphabet, from `crypto.getRandomValues` when the
    runtime has it and from `Math.random` otherwise.  The random sources
    are parameters: the unsigned 32-bit words the crypto API fills in, or
    the reals in [0, 1) `Math.random` returns. */
module RandomId {
  import opened Wrappers

  /** The alphabet, in the source's order: the digits, lower-case and
      upper-case letters in keyboard runs. */
  const Alphabet: string := "12345qwertyuiopasdfgh67890jklmnbvcxzMNBVCZXASDQWERTYHGFUIOLKJP"

  const MaxPos := 62

  lemma AlphabetLength()
    ensures |Alphabet| == MaxPos
  {
  }

  /** A `Uint32Array` element. */
  predicate IsWord(w: int) {
    0 <= w < 0x1_0000_0000
  }

  predicate Words(ws: seq<int>) {
    forall k :: 0 <= k < |ws| ==> IsWord(ws[k])
  }

  predicate Draws(rs: seq<real>) {
    forall k :: 0 <= k < |rs| ==> 0.0 <= rs[k] < 1.0
  }

  /** The crypto path: one character per word, `chars[word % maxPos]`. */
  method FromWords(words: seq<int>) returns (result: string)
    requires Words(words)
    ensures |result| == |words|
    ensures forall k :: 0 <= k < |words| ==> result[k] == Alphabet[words[k] % MaxPos]
  {
    AlphabetLength();
    result := "";
    var i := 0;
    while i < |words|
      invariant 0 <= i <= |words|
      invariant |result| == i
      invariant forall k :: 0 <= k < i ==> result[k] == Alphabet[words[k] % MaxPos]
    {
      result := result + [Alphabet[words[i] % MaxPos]];
      i := i + 1;
    }
  }

  /** `Math.floor(r * maxPos)`, an index into the alphabet. */
  function Position(r: real): (p: nat)
    requires 0.0 <= r < 1.0
    ensures p < MaxPos
    ensures p as real <= r * MaxPos as real < p as real + 1.0
  {
    (r * MaxPos as real).Floor
  }

  /** The fallback path: `chars.charAt(Math.floor(Math.random() * maxPos))`. */
  method FromDraws(draws: seq<real>) returns (result: string)
    requires Draws(draws)
    ensures |result| == |draws|
    ensures forall k :: 0 <= k < |draws| ==> result[k] == Alphabet[Position(draws[k])]
  {
    AlphabetLength();
    result := "";
    var i := 0;
    while i < |draws|
      invariant 0 <= i <= |draws|
      invariant |result| == i
      invariant forall k :: 0 <= k < i ==> result[k] == Alphabet[Position(draws[k])]
    {
      result := result + [Alphabet[Position(draws[i])]];
      i := i + 1;
    }
  }

  /** The source of randomness the runtime offers. */
  datatype Randomness =
    | Crypto(words: seq<int>)
    | MathRandom(draws: seq<real>)

  /** `randomID(len)`: exactly `len` characters, every one from the
      alphabet, picked by the crypto words when they are available. */
  method RandomId(len: nat, source: Randomness) returns (id: string)
    requires source.Crypto? ==> |source.words| == len && Words(source.words)
    requires source.MathRandom? ==> |source.draws| == len && Draws(source.draws)
    ensures |id| == len
    ensures forall k :: 0 <= k < len ==> id[k] in Alphabet
    ensures source.Crypto? ==> forall k :: 0 <= k < len ==> id[k] == Alphabet[source.words[k] % MaxPos]
    ensures source.MathRandom? ==> forall k :: 0 <= k < len ==> id[k] == Alphabet[Position(source.draws[k])]
  {
    AlphabetLength();
    if source.Crypto? {
      id := FromWords(source.words);
    } else {
      id := FromDraws(source.draws);
    }
  }

  /** The length `randomID()` uses when called without one. */
  const DefaultLength := 5

  /** `randomID()`: five characters from the alphabet. */
  method RandomIdDefault(source: Randomness) returns (id: string)
    requires source.Crypto? ==> |source.words| == DefaultLength && Words(source.words)
    requires source.MathRandom? ==> |source.draws| == DefaultLength && Draws(source.draws)
    ensures |id| == 5
    ensures forall k :: 0 <= k < 5 ==> id[k] in Alphabet
    ensures source.Crypto? ==> forall k :: 0 <= k < 5 ==> id[k] == Alphabet[source.words[k] % MaxPos]
    ensures source.MathRandom? ==> forall k :: 0 <= k < 5 ==> id[k] == Alphabet[Position(source.draws[k])]
  {
    id := RandomId(DefaultLength, source);
  }
}
