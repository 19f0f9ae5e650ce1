/** Values shared by the components. */
module Values {
  datatype Option<+T> = None | Some(value: T)

  /** SHA-256 of a canonical encoding, abstracted to its preimage: equal digests
      have equal preimages. */
  datatype Digest<+T> = Sha256(preimage: T)
}
