// The instruction sets found at run time. Nothing is assumed about which are present.
module Cpu {
  datatype Features = Features(avx512f: bool, avx2: bool, avx: bool, sse2: bool) {
    // The vector width that the dispatching functions choose: the widest that the features
    // offer; 1 is the scalar code.
    function Width(): (w: nat)
      ensures w in {1, 4, 8, 16} && Offers(w)
      ensures forall v :: v in {1, 4, 8, 16} && Offers(v) ==> v <= w
    {
      if avx512f then 16 else if avx2 then 8 else if avx || sse2 then 4 else 1
    }

    predicate Offers(width: nat) {
      width == 1 || (width == 4 && (avx || sse2)) || (width == 8 && avx2) || (width == 16 && avx512f)
    }
  }
}
