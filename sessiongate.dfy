/** The guard around the admin pages: it asks once, on mount, for the current
    session, renders nothing until the answer arrives, then either the
    protected content or a redirect to the login page. */
module SessionGate {
  import opened Records

  const LoginPath: string := "/admin"

  /** What the guard renders: nothing, a `<Navigate>` (with the target and
      whether it replaces the history entry), or the protected content. */
  datatype Output<C> = Nothing | Redirect(to: string, replace: bool) | Children(content: C)

  /** The render decision, from the two state fields alone. */
  function Decide<C>(loading: bool, session: Option<string>, children: C): (out: Output<C>)
    ensures out.Nothing? <==> loading
    ensures out.Redirect? <==> !loading && session.None?
    ensures out.Redirect? ==> out.to == LoginPath && out.replace
    ensures out.Children? <==> !loading && session.Some?
    ensures out.Children? ==> out.content == children
  {
    if loading then Nothing
    else if session.None? then Redirect(LoginPath, true)
    else Children(children)
  }

  /** The guard's state. */
  class Gate {
    var loading: bool
    var session: Option<string>

    /** Until the answer arrives there is no session. */
    predicate Valid()
      reads this
    {
      loading ==> session.None?
    }

    constructor()
      ensures loading && session == None
      ensures Valid()
    {
      loading := true;
      session := None;
    }

    /** The mount effect's `getSession()` resolved: the session is stored and
        loading ends; nothing sets `loading` again. */
    method Resolve(s: Option<string>)
      requires Valid()
      modifies this
      ensures session == s && !loading
      ensures Valid()
    {
      session := s;
      loading := false;
    }
  }
}
