/** The `login_required` decorator: a guard in front of every signed-in
    route. The session is the cookie-backed Flask session, a map from
    names to JSON values; the wrapped route handler is any function of it. */
module AuthGate {
  import opened Json

  type Session = map<string, Json>

  /** The session entry written by the sign-in callback. */
  const TokenKey: string := "token"

  const LoginPath: string := "/login"

  datatype Reply<R> = Handled(response: R) | Redirect(location: string)

  /** What the gate answers and the session it leaves behind. */
  datatype Gated<R> = Gated(reply: Reply<R>, session: Session)

  /** Runs `handler` when the session holds a token, and otherwise clears
      the session and redirects to the login page. Only the presence of the
      key is tested: a token of any value, even an empty one, is admitted. */
  function LoginRequired<R>(handler: Session -> R, session: Session): (g: Gated<R>)
    ensures g.reply.Handled? <==> TokenKey in session
    ensures g.reply.Handled? ==> g.reply.response == handler(session) && g.session == session
    ensures g.reply.Redirect? ==> g.reply.location == LoginPath && g.session == map[]
  {
    if TokenKey in session then Gated(Handled(handler(session)), session)
    else Gated(Redirect(LoginPath), map[])
  }

  /** A rejected visitor stays rejected: the cleared session fails the gate
      again, for every handler, until a sign-in stores a token. */
  lemma RedirectIsSticky<R, S>(h1: Session -> R, h2: Session -> S, session: Session)
    requires LoginRequired(h1, session).reply.Redirect?
    ensures LoginRequired(h2, LoginRequired(h1, session).session) == Gated(Redirect(LoginPath), map[])
  {
  }

  /** Storing a token, as the sign-in callback does, opens the gate, and the
      gate hands the handler exactly that session. */
  lemma SignInOpensGate<R>(handler: Session -> R, session: Session, token: Json)
    ensures LoginRequired(handler, session[TokenKey := token])
            == Gated(Handled(handler(session[TokenKey := token])), session[TokenKey := token])
  {
  }
}
