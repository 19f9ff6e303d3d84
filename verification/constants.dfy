/** Upload limits and fixed texts shared by the analysis route. The texts are
    functions rather than constants so that proofs which never mention them
    do not carry them. Long texts are written as concatenations of short
    literals, which keeps the verifier's work on them small. */
module Constants {

  /** The MIME types an upload may have: PDF, DOCX, PNG, JPEG and plain text. */
  function AllowedFileTypes(): (r: seq<string>)
    ensures |r| == 5
  {
    [
      "application/pdf",
      "application/" + "vnd." + "openxmlformats-" + "officedocument." +
      "wordprocessingml." + "document",
      "image/png",
      "image/jpeg",
      "text/plain"
    ]
  }

  /** 10 MiB */
  const MAX_FILE_SIZE: int := 10 * 1024 * 1024

  /** Where the Indian Contract Act is published. */
  function IndianContractActUrl(): string {
    "https://" + "www.indiacode." + "nic.in/" + "bitstream/" +
    "123456789/" + "2187/2/" + "A187209.pdf"
  }

  function Disclaimer(): string {
    "This analysis " + "is for " + "educational " +
    "purposes " + "only. It does " + "not " +
    "constitute " + "legal advice. " + "Consult a " +
    "qualified " + "lawyer before " + "signing any " +
    "contract."
  }
}
