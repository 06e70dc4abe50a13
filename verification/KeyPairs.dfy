// Certificates and keys as tokens: what PEM, X.509 and key generation amount to for the stores.
module KeyPairs {

  /** The stored texts: issue `i` makes certificate `i` and key `i`, which match each other and nothing else. */
  datatype Blob = CertPem(issue: nat) | KeyPem(issue: nat) | Junk

  datatype Tls = Tls(cert: Blob, key: Blob)

  /** `tls.X509KeyPair` accepts the two. */
  predicate Matches(cert: Blob, key: Blob) {
    cert.CertPem? && key.KeyPem? && cert.issue == key.issue
  }
}
