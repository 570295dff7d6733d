/** The errors of the GOOSE layers. The octet counts carried by a truncation
    error serve only its message and are not modelled. */
module GooseErrors {
  import opened Bytes

  datatype Asn1Error =
    | TruncatedLength
    | LengthTooLong(firstByte: Byte)

  datatype GooseError =
    | UnknownTag(tag: Byte)
    | TagDecode
    | SubLevel(inner: GooseError)
    | Overflow
    | LengthMismatch
    | InvalidPadding(padding: Byte)
    | FieldTooLong(length: nat)
    | MissingTimestamp
    | InvalidStateNumber
    | InvalidTimestamp
    | InvalidTimestampQuality(accuracy: Byte)
    | EthernetFrameTooShort
    | WrongEtherType(etherType: U16)
    | VlanPriorityOutOfRange(priority: Byte)
    | PduOverflow
    | DataSetLengthMismatch(expected: nat, actual: nat)
    | Asn1(asn1: Asn1Error)
    | TruncatedInput
    | ConfRevMismatch(expectedRev: U32, actualRev: U32)
}
