/** The error codes both lanes share, as far as the modelled code reports them. */
module Errors {
  datatype Err =
    | Ok
    | InvalidArgument
    | BufferTooSmall
    | PayloadTooShort
    | PayloadTooLarge
    | MalformedPacket
    | InvalidPoint
    | IdentityPoint
    | NonCanonicalScalar
    | ProofVerify
    | RoleNotPermitted
    | ReplayDetected
    | UnknownDevice
    | UnknownSession
    | UnknownPacketType
    | PairingTokenInvalid
    | PeerKeyMismatch
    | KeyConfirm
    | TooManyActive
    | UnsupportedVersion
    | StorageFailure
    | DeviceNotEnrolled
    | CredentialMissing
}
