/** What a request handler hands back to the web framework: page or action
    data, an action failure (`fail`), a redirect (`redirect`), or an
    exception that escapes the handler and becomes a server error. */
module Kit {

  /** Why a handler threw instead of returning. */
  datatype Cause =
    | MissingDetails  // the handler read a field of a details row that does not exist
    | DuplicateEmail  // an insert broke the unique constraint on user emails

  datatype Response<T> =
    | Data(value: T)
    | Fail(status: int, message: string)
    | Redirect(status: int, location: string)
    | Unhandled(cause: Cause)

  /** Decimal text of a number, as a JavaScript template literal prints an integer. */
  function IntToString(i: int): string
  {
    if i < 0 then "-" + NatToString(-i) else NatToString(i)
  }

  function NatToString(n: nat): string
    decreases n
  {
    if n < 10 then [DigitChar(n)] else NatToString(n / 10) + [DigitChar(n % 10)]
  }

  function DigitChar(d: nat): char
    requires d < 10
  {
    "0123456789"[d]
  }

  /** The path of a game level page. */
  function GamePath(level: int): string
  {
    "/game/" + IntToString(level)
  }
}
