/**
 Ideal cryptography. A sealed value opens exactly under its key and its associated data, an
 envelope exactly for its device and header; digest, message authentication, key derivation and
 signature verification are arbitrary functions.
 */
module Crypto {
  import opened Bytes
  import opened Errors
  import opened CanonicalForm
  import opened MarkCodec

  type Key = nat
  type Id = uint64
  type UserId = nat
  type DeviceKey = nat
  type DevicePrivateKey = nat
  type AuthorKey = nat
  type Signature = nat
  type Timestamp = int
  type Identity = seq<byte>
  type Name = seq<byte>

  const RECEIPT_VERSION := 1
  const PACKAGE_VERSION := 1
  const SIGNATURE_ALGORITHM := 1

  datatype Primitives = Primitives(
    digest: seq<byte> -> Identity,
    mac: (Key, Identity, Id, byte) -> MarkCode,
    markKeyOf: Key -> Key,
    signed: (Identity, Name, Signature, AuthorKey) -> bool,
    publicOf: DevicePrivateKey -> DeviceKey)

  datatype Header = Header(
    version: byte, purchaseId: Id, userId: UserId, purchasedAt: Timestamp, issuedAt: Timestamp)

  datatype Plain = Text(bytes: seq<byte>) | KeyBytes(key: Key)

  /** Sealed with `key`, with an identity as associated data. */
  datatype Sealed = Sealed(key: Key, bound: Identity, plain: Plain)

  /** A key sealed for one device, with a receipt header as associated data. */
  datatype Envelope = Envelope(device: DeviceKey, bound: Header, key: Key)

  datatype Receipt = Receipt(header: Header, wrappedKey: Envelope)

  datatype Package = Package(
    version: byte, content: Sealed, wrappedBlobKey: Sealed, identity: Identity,
    authorKey: AuthorKey, authorName: Name, algorithm: byte, signature: Signature)

  function Decrypt(sealed: Sealed, key: Key, bound: Identity): Result<Plain, CoreError> {
    if sealed.key == key && sealed.bound == bound then Ok(sealed.plain) else Err(AuthenticationFailed)
  }

  function UnwrapKey(wrapped: Sealed, key: Key, bound: Identity): Result<Key, CoreError> {
    match Decrypt(wrapped, key, bound)
    case Err(e) => Err(e)
    case Ok(KeyBytes(k)) => Ok(k)
    case Ok(Text(_)) => Err(KeySizeMismatch)
  }

  function OpenReceiptKey(pr: Primitives, receipt: Receipt, device: DevicePrivateKey): Result<Key, CoreError> {
    if receipt.header.version != RECEIPT_VERSION then Err(ReceiptVersionUnsupported)
    else if receipt.wrappedKey.device == pr.publicOf(device) && receipt.wrappedKey.bound == receipt.header then
      Ok(receipt.wrappedKey.key)
    else Err(AuthenticationFailed)
  }

  /** The digest of the canonical form. */
  function ContentIdentity(pr: Primitives, content: seq<byte>): Identity {
    pr.digest(Canonical(content))
  }

  function OpenPackage(pr: Primitives, package: Package, purchaseKey: Key): Result<seq<byte>, CoreError> {
    if package.version != PACKAGE_VERSION then Err(PackageVersionUnsupported)
    else if package.algorithm != SIGNATURE_ALGORITHM then Err(AlgorithmUnsupported)
    else
      match UnwrapKey(package.wrappedBlobKey, purchaseKey, package.identity)
      case Err(e) => Err(e)
      case Ok(blobKey) =>
        match Decrypt(package.content, blobKey, package.identity)
        case Err(e) => Err(e)
        case Ok(KeyBytes(_)) => Err(ContentMismatch)
        case Ok(Text(plaintext)) =>
          if ContentIdentity(pr, plaintext) != package.identity then Err(ContentMismatch)
          else if !pr.signed(package.identity, package.authorName, package.signature, package.authorKey) then
            Err(SignatureInvalid)
          else Ok(plaintext)
  }
}
