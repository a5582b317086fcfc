/** The error codes of the core library that the modelled operations return. */
module Errors {
  datatype CoreError =
    | DigestFailed
    | StorageFailed
    | KeyNotFound
    | KeyMalformed
    | KeySizeMismatch
    | AlgorithmUnsupported
    | CryptoFailed
    | AuthenticationFailed
    | SealedContentMalformed
    | BlobNotFound
    | UserNotFound
    | NotPermitted
    | PublicationNotFound
    | ContentDuplicate
    | PurchaseNotFound
    | RecordExists
    | ReceiptVersionUnsupported
    | ReceiptNotFound
    | ReceiptMalformed
    | PackageVersionUnsupported
    | ContentMismatch
    | ContentOutsideChannelDomain
    | SignatureInvalid
    | MarkVersionUnsupported
    | MarkAuthenticationFailed
    | MarkNotFound
    | MarkNotConfident
    | ConnectionFailed
}
