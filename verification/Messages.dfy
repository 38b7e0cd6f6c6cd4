/** The message that travels from the listeners through the broker to the consumers. */
module Messages {
  import opened Text

  /** The members of a card transaction's JSON payload, in the order of the fixed layout. */
  datatype Field =
    | MerchantType | MsgType | TranUniqueNbr | ResponseCode | TerminalNo
    | Installment | Amount | CardNo | ApprovalNo | ApprovalDate
    | ApprovalTime | OrigDate | CardType | IssuerCode | IssuerName
    | AcquirerCode | AcquirerName | MerchantNo | BusinessNo | CancelFlag

  /** The string-valued members of a JSON payload; any other member reads as absent. */
  type Payload = map<Field, string>

  datatype QueueMessage = QueueMessage(
    id: string,
    eventType: string,
    payload: Payload,
    timestamp: int,
    receivedAt: int,
    tableKey: Option<string>)

  /** `p[member].as_str().unwrap_or(default)` */
  function Member(p: Payload, f: Field, default: string): string {
    if f in p then p[f] else default
  }
}
