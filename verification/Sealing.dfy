/** Documents sealed by a hash of everything but the seal itself. */
module Sealing {
  datatype Sealed<+B> = Sealed(body: B, seal: string)

  type Hash<!B> = B -> string

  /** The standing assumption about the hash of the canonical JSON text. */
  ghost predicate CollisionFree<B(!new)>(hash: Hash<B>) {
    forall a, b :: hash(a) == hash(b) ==> a == b
  }

  /** What the verifiers check: the shape of the document and its recomputed hash. */
  predicate Verified<B>(hash: Hash<B>, shape: Sealed<B> -> bool, s: Sealed<B>) {
    shape(s) && s.seal == hash(s.body)
  }

  datatype Issue = WrongShape | SealMismatch(expected: string, actual: string)

  method Verify<B>(hash: Hash<B>, shape: Sealed<B> -> bool, s: Sealed<B>) returns (issues: seq<Issue>)
    ensures issues == [] <==> Verified(hash, shape, s)
    ensures forall i :: 0 <= i < |issues| && issues[i].SealMismatch? ==> s.seal != hash(s.body)
  {
    issues := if shape(s) then [] else [WrongShape];
    if s.seal != hash(s.body) {
      issues := issues + [SealMismatch(hash(s.body), s.seal)];
    }
  }

  /** The seal of a verified document determines the document. */
  lemma SealDetermines<B(!new)>(hash: Hash<B>, shape: Sealed<B> -> bool, s: Sealed<B>, t: Sealed<B>)
    requires CollisionFree(hash) && Verified(hash, shape, s) && Verified(hash, shape, t)
    ensures s == t <==> s.seal == t.seal
  {
  }
}
