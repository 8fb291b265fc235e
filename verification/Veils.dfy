/**
 A way to keep large definitions closed.  A veiled predicate is defined as the
 truth value that agrees with its body wherever the veil is lifted; since the veil
 can always be lifted, it means its body, but the verifier looks at the body only
 in proofs that say `assert Lifted(veil, 0)`.
 */
module Veils {

  datatype Veil =
    // OWFS
    | Device | Count | Drift | Slot | Header | Recount
    | Backing | Map | Growth | Extension | Soundness | Stepping | Sparing
    | Rewrite | Chunk | Progressing
    | Record | Slots | Catalogs | Answering | Birth | Entering | Turning | Overlaying | Ordering | Recording
    // USFS
    | Table | Bits | Framing | Keeping | Landing | Reading | Placing | Replacing | Moving | Scanning | Painting
    | Exactness | Copying | Overwriting
    // names, words
    | Decoding | Halving | Masking

  predicate Lifted(veil: Veil, k: int) { true }
}
