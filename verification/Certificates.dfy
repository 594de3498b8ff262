/** Certificates, the PEM data of a TLS secret, and reading them back. X.509 and PEM bytes are
    abstract: a secret holds the list of its PEM blocks. Times are nanoseconds. */
module Certificates {
  import opened GoStrings

  datatype Certificate = Certificate(
    serialNumber: nat,
    issuerCommonName: string,
    issuerOrganizations: seq<string>,
    notBefore: int,
    notAfter: int,
    dnsNames: seq<string>,
    publicKey: nat)

  datatype PemBlock = CertBlock(certificate: Certificate) | OpaqueBlock

  /** A result of Go code that may return an error or panic. */
  datatype Outcome<+T> = Ok(value: T) | Err | Panic

  /** ParseCertificateData: only the first PEM block counts, and data without one is dereferenced
      as a nil block. */
  function ParseCertificateData(data: seq<PemBlock>): Outcome<Certificate> {
    if data == [] then Panic
    else if data[0].CertBlock? then Ok(data[0].certificate)
    else Err
  }

  datatype Secret = Secret(
    rv: nat,
    labels: map<string, string>,
    tlsCert: Option<seq<PemBlock>>,
    tlsKey: Option<nat>)

  /** GetCertificate once the secret has been fetched. */
  function CertificateOf(secret: Secret): Outcome<Certificate> {
    if secret.tlsCert == None then Err else ParseCertificateData(secret.tlsCert.value)
  }

  const LETS_ENCRYPT := "Let's Encrypt"
  const FAKE_INTERMEDIATE := "Fake LE Intermediate X1"

  predicate IssuedByLetsEncrypt(c: Certificate) {
    LETS_ENCRYPT in c.issuerOrganizations || c.issuerCommonName == FAKE_INTERMEDIATE
  }

  method IsCertificateIssuerLE(c: Certificate) returns (yes: bool)
    ensures yes <==> IssuedByLetsEncrypt(c)
    ensures yes <==> (exists i :: 0 <= i < |c.issuerOrganizations| && c.issuerOrganizations[i] == "Let's Encrypt")
                     || c.issuerCommonName == "Fake LE Intermediate X1"
  {
    if |c.issuerOrganizations| > 0 {
      for i := 0 to |c.issuerOrganizations|
        invariant forall j :: 0 <= j < i ==> c.issuerOrganizations[j] != LETS_ENCRYPT
      {
        if c.issuerOrganizations[i] == LETS_ENCRYPT {
          return true;
        }
      }
    }
    return c.issuerCommonName == FAKE_INTERMEDIATE;
  }
}
