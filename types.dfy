/** Record shapes shared by the ingestion script and the raffle script. */
module Types {

  /** A value that may be absent (an optional field, a missing row, a failed parse). */
  datatype Option<+T> = None | Some(value: T)

  /** The three tokens whose balances are recorded, one table column each. */
  datatype Token = Ar | Aistr | Alch

  /** A row of the `holders` table: the address and one decimal-string column per token
      ('' when no balance was ever written for that token). */
  datatype HolderDTO = HolderDTO(address: string, ar: string, aistr: string, alch: string)

  /** A balance record handed to the upsert: the address and the optional amount of each token. */
  datatype Holder = Holder(address: string, ar: Option<nat>, aistr: Option<nat>, alch: Option<nat>)

  /** An aggregated holder: the parsed amount of each token and their total. */
  datatype TotalTokenHolder = TotalTokenHolder(address: string, total: nat, ar: nat, aistr: nat, alch: nat)

  /** The amount a holder record carries for `token`. */
  function Amount(h: Holder, token: Token): Option<nat>
  {
    match token
    case Ar => h.ar
    case Aistr => h.aistr
    case Alch => h.alch
  }
}
