/** Shared vocabulary of the cashup back end: identifiers, the three collections'
    document shapes as the controllers see them, and the JSON envelope that every
    controller answers with. */
module Common {

  datatype Option<+T> = None | Some(value: T)

  /** A MongoDB ObjectId of a user document. */
  type UserId = nat

  /** A MongoDB ObjectId of a bank document. */
  type BankId = nat

  /** One day in milliseconds: generateToken moves the expiry date one day ahead. */
  const DayMs: int := 86_400_000

  /** A user document: the hashed password, the list of bank ids pushed at
      registration and the list of token ids pushed at every login. */
  datatype User = User(username: string, email: string, passwordHash: string,
                       bankIds: seq<BankId>, tokens: seq<string>)

  /** A bank document, keyed by its owner's user id as the controllers query it;
      the balance is in cents. */
  datatype Account = Account(owner: UserId, balance: int)

  /** A token document: its owner and its expiry instant (milliseconds). Token
      documents are identified by their token string. */
  datatype TokenRecord = TokenRecord(user: UserId, expiresAt: int)

  /** A JavaScript string used as a condition: present and not empty. */
  predicate Given(s: Option<string>)
  {
    s.Some? && s.value != ""
  }

  datatype Status = Success | Error

  /** The body built by ApiResponse.success and ApiResponse.error. */
  datatype ApiResponse<+T> = ApiResponse(status: Status, message: string, data: Option<T>)

  /** What a handler sends: a status code with a JSON body, or an exception that
      escapes the handler and is turned into a server error by the framework. */
  datatype Reply<+T> = Json(code: nat, body: ApiResponse<T>) | Uncaught
  {
    predicate Succeeded() { Json? && body.status == Success }
  }

  function Ok<T>(code: nat, message: string, data: T): Reply<T>
  {
    Json(code, ApiResponse(Success, message, Some(data)))
  }

  /** ApiResponse.success with no payload. */
  function Acknowledge<T>(code: nat, message: string): Reply<T>
  {
    Json(code, ApiResponse(Success, message, None))
  }

  function Fail<T>(code: nat, message: string): Reply<T>
  {
    Json(code, ApiResponse(Error, message, None))
  }
}
