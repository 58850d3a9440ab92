/** What a handler sends back, and the parts of an Express request the core reads and writes. */
module Http {

  import opened Wrappers
  import opened UsersModel
  import opened Crypto

  datatype Reply =
    | Redirect(location: string)                   // res.redirect(location)
    | Text(status: int, text: string)              // res.status(status).send(text)
    | Json(status: int, message: string)           // res.status(status).json({ message })
    | TokenJson(token: Jwt, user: User)            // jwt cookie set, then res.json({ token, user })
    | DocumentsJson(documents: seq<Document>)      // 200 with the user's new documents list
    | ClearJwtRedirect(location: string)           // res.clearCookie('jwt'), then res.redirect(location)

  /** What a middleware does with a request: pass it on with `next()` or answer it. */
  datatype Gate = Next | Respond(reply: Reply)

  /**
   * The request context. `user` is `req.user` (filled by the session through
   * `deserializeUser`, or by a middleware); `req.isAuthenticated()` is
   * `user.Some?`. `localsUser` is `res.locals.user`.
   */
  class Request {
    var user: Option<User>
    var jwtCookie: Option<string>
    var authorization: Option<string>
    var localsUser: Option<User>

    constructor (sessionUser: Option<User>, jwtCookie: Option<string>, authorization: Option<string>)
      ensures user == sessionUser && this.jwtCookie == jwtCookie && this.authorization == authorization
      ensures localsUser == None
    {
      user := sessionUser;
      this.jwtCookie := jwtCookie;
      this.authorization := authorization;
      localsUser := None;
    }
  }
}
