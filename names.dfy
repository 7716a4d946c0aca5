/** Class-name generation, shared by both component variants
    (`Component._generateNameClass` in components.js and
    `Component._generateName` in _DOM.js, which are the same code).

    `Math.random` is replaced by a supplied stream of draws: each draw is
    already the index `Math.floor(Math.random() * 62)` into the alphabet. */
module Names {

  const Lower: string := "abcdefghijklmnopqrstuvwxyz"
  const Upper: string := "ABCDEFGHIJKLMNOPQRSTUVWXYZ"
  const Digits: string := "0123456789"

  /** `CHARS`: the 62 characters a name suffix is drawn from. */
  const Alphabet: string := Lower + Upper + Digits

  /** Random characters after the `_`. */
  const SuffixLength: nat := 6

  predicate IsDraw(d: nat) {
    d < |Alphabet|
  }

  /** The next name's worth of draws is available. */
  predicate HasName(draws: seq<nat>) {
    SuffixLength <= |draws| && forall i | 0 <= i < SuffixLength :: IsDraw(draws[i])
  }

  /** `${kind}_${randomStr}` built from the first six draws. */
  function NameOf(kind: string, draws: seq<nat>): (r: string)
    requires HasName(draws)
    ensures |r| == |kind| + 1 + SuffixLength
    ensures r[..|kind| + 1] == kind + "_"
  {
    kind + "_" + seq(SuffixLength, i requires 0 <= i < SuffixLength && HasName(draws) => Alphabet[draws[i]])
  }

  predicate IsAlphanumeric(c: char) {
    'a' <= c <= 'z' || 'A' <= c <= 'Z' || '0' <= c <= '9'
  }

  /** Where a character sits in the alphabet, or -1. */
  function AlphabetIndex(c: char): int {
    if 'a' <= c <= 'z' then c as int - 'a' as int
    else if 'A' <= c <= 'Z' then c as int - 'A' as int + 26
    else if '0' <= c <= '9' then c as int - '0' as int + 52
    else -1
  }

  lemma LowerLayout(i: nat)
    requires i < |Lower|
    ensures Lower[i] as int == 'a' as int + i
  {
  }

  lemma UpperLayout(i: nat)
    requires i < |Upper|
    ensures Upper[i] as int == 'A' as int + i
  {
  }

  lemma DigitsLayout(i: nat)
    requires i < |Digits|
    ensures Digits[i] as int == '0' as int + i
  {
  }

  /** The alphabet is the 26 lower-case letters, the 26 capitals and the ten
      digits, in that order; so each character occurs once and its position
      can be read back. */
  lemma AlphabetLayout(i: nat)
    requires i < |Alphabet|
    ensures |Alphabet| == 62
    ensures IsAlphanumeric(Alphabet[i])
    ensures AlphabetIndex(Alphabet[i]) == i
  {
    if i < 26 {
      LowerLayout(i);
    } else if i < 52 {
      assert Alphabet[i] == Upper[i - 26];
      UpperLayout(i - 26);
    } else {
      assert Alphabet[i] == Digits[i - 52];
      DigitsLayout(i - 52);
    }
  }

  lemma AlphabetDistinct(i: nat, j: nat)
    requires i < |Alphabet| && j < |Alphabet|
    ensures Alphabet[i] == Alphabet[j] <==> i == j
  {
    AlphabetLayout(i);
    AlphabetLayout(j);
  }

  /** The draws a generated name encodes, read back from its suffix. */
  function DrawsOf(name: string, kind: string): seq<int>
    requires |kind| + 1 + SuffixLength <= |name|
  {
    seq(SuffixLength, i requires 0 <= i < SuffixLength && |kind| + 1 + SuffixLength <= |name|
      => AlphabetIndex(name[|kind| + 1 + i]))
  }

  /** The suffix of a generated name is alphanumeric, and reading it back gives
      the draws that made it. */
  lemma DrawsOfNameOf(kind: string, draws: seq<nat>)
    requires HasName(draws)
    ensures forall i | |kind| + 1 <= i < |NameOf(kind, draws)| :: IsAlphanumeric(NameOf(kind, draws)[i])
    ensures DrawsOf(NameOf(kind, draws), kind) == draws[..SuffixLength]
  {
    var n := NameOf(kind, draws);
    forall i | 0 <= i < SuffixLength
      ensures IsAlphanumeric(n[|kind| + 1 + i]) && DrawsOf(n, kind)[i] == draws[i]
    {
      AlphabetLayout(draws[i]);
    }
  }

  /** Two names of one kind are equal exactly when they were made from the same
      six draws. Nothing else keeps names apart: the generator itself performs
      no collision check. */
  lemma NameOfInjective(kind: string, d1: seq<nat>, d2: seq<nat>)
    requires HasName(d1) && HasName(d2)
    ensures NameOf(kind, d1) == NameOf(kind, d2) <==> d1[..SuffixLength] == d2[..SuffixLength]
  {
    DrawsOfNameOf(kind, d1);
    DrawsOfNameOf(kind, d2);
    if d1[..SuffixLength] == d2[..SuffixLength] {
      assert forall i | 0 <= i < SuffixLength :: d1[i] == d2[i] by {
        forall i | 0 <= i < SuffixLength ensures d1[i] == d2[i] {
          assert d1[..SuffixLength][i] == d2[..SuffixLength][i];
        }
      }
    }
  }

  /** The `for` loop that draws six characters. */
  method GenerateName(kind: string, draws: seq<nat>) returns (name: string)
    requires HasName(draws)
    ensures name == NameOf(kind, draws)
  {
    var randomStr := "";
    for i := 0 to SuffixLength
      invariant |randomStr| == i
      invariant forall k | 0 <= k < i :: randomStr[k] == Alphabet[draws[k]]
    {
      randomStr := randomStr + [Alphabet[draws[i]]];
    }
    name := kind + "_" + randomStr;
  }

  /** The global random source, as a finite stream of supplied draws. */
  class Random {
    var draws: seq<nat>

    constructor(draws: seq<nat>)
      ensures this.draws == draws
    {
      this.draws := draws;
    }

    /** One call of the name generator: consumes six draws. */
    method NextName(kind: string) returns (name: string)
      requires HasName(draws)
      modifies this
      ensures name == NameOf(kind, old(draws))
      ensures draws == old(draws)[SuffixLength..]
    {
      name := GenerateName(kind, draws);
      draws := draws[SuffixLength..];
    }
  }
}
