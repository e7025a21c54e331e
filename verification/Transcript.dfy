/**
 The Fiat-Shamir transcript: the sequence of messages absorbed so far, and an arbitrary challenge
 function of that sequence.  Drawing a challenge is itself absorbed, as in Merlin.
 */
module Transcript {
  import opened PrimeField

  datatype Option<+T> = None | Some(value: T)

  datatype Message =
    | Number(tag: string, n: nat)
    | Point(tag: string, pt: int)
    | Scalar(tag: string, x: int)
    | Data(tag: string, words: seq<int>)
    | Draw(tag: string)

  type Log = seq<Message>
  type Oracle = Log -> int

  /** The challenge drawn under `tag` after `log`. */
  function Challenge(oracle: Oracle, log: Log, tag: string, p: Modulus): (c: int)
    ensures Canonical(c, p)
  {
    Mod(oracle(log + [Draw(tag)]), p)
  }

  /** Equal sequences with beginnings of equal length agree in both parts. */
  lemma SplitEqual<T>(a: seq<T>, b: seq<T>, a': seq<T>, b': seq<T>)
    requires |a| == |a'| && a + b == a' + b'
    ensures a == a' && b == b'
  {
    assert a == (a + b)[..|a|] && a' == (a' + b')[..|a|] && b == (a + b)[|a|..] && b' == (a' + b')[|a|..];
  }

  class Tape {
    const oracle: Oracle
    var log: Log

    constructor (oracle: Oracle, log: Log)
      ensures this.oracle == oracle && this.log == log
    {
      this.oracle := oracle;
      this.log := log;
    }

    method Append(m: Message)
      modifies this
      ensures log == old(log) + [m]
    {
      log := log + [m];
    }

    method ChallengeScalar(tag: string, p: Modulus) returns (c: int)
      modifies this
      ensures c == Challenge(oracle, old(log), tag, p)
      ensures log == old(log) + [Draw(tag)]
    {
      c := Challenge(oracle, log, tag, p);
      log := log + [Draw(tag)];
    }
  }
}
