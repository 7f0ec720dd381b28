/** One HTTP exchange as the plugin's handlers see it: the cookies the browser sent,
    and the cookie writes that will go out with the response. */
module Exchange {
  import opened Wrappers
  import opened SecurityCookie

  /** An entry of hapi's `_states`: `h.state(name, value)` leaves one with a value,
      `h.unstate(name)` one without. */
  datatype Pending = State(value: string) | Unstate

  datatype MainWrite = Untouched | Stored(cookie: Cookie) | Cleared

  /** What one browser holds between requests: the session cookie and the split cookies. */
  datatype Jar = Jar(main: Option<Cookie>, split: map<string, string>)

  datatype View = View(jar: Jar, mainWrite: MainWrite, states: map<string, Pending>)
  {
    /** `sessionStorage.get()`: the cookie the request came with, if it validates. */
    function Session(now: Time): Option<Cookie> {
      if Validate(jar.main, now) then jar.main else None
    }

    /** `sessionStorage.set(cookie)` */
    function Set(cookie: Cookie): View {
      this.(mainWrite := Stored(cookie))
    }

    /** `sessionStorage.clear()` */
    function Clear(): View {
      this.(mainWrite := Cleared)
    }
  }

  function Open(jar: Jar): View {
    View(jar, Untouched, map[])
  }

  function ApplyStates(split: map<string, string>, states: map<string, Pending>): map<string, string> {
    map name | name in split.Keys + states.Keys && (name in states ==> states[name].State?) ::
      if name in states then states[name].value else split[name]
  }

  /** The jar after the browser has processed the response's Set-Cookie headers. */
  function Respond(v: View): Jar {
    Jar(match v.mainWrite
        case Untouched => v.jar.main
        case Stored(cookie) => Some(cookie)
        case Cleared => None,
        ApplyStates(v.jar.split, v.states))
  }

  class RawRequest {
    const jar: Jar
    var mainWrite: MainWrite
    var states: map<string, Pending>

    constructor (jar: Jar)
      ensures GetView() == Open(jar)
    {
      this.jar := jar;
      mainWrite := Untouched;
      states := map[];
    }

    function GetView(): (v: View)
      reads this
    {
      View(jar, mainWrite, states)
    }

    method State(name: string, value: string)
      modifies this`states
      ensures states == old(states)[name := Pending.State(value)]
    {
      states := states[name := Pending.State(value)];
    }

    method Unstate(name: string)
      modifies this`states
      ensures states == old(states)[name := Pending.Unstate]
    {
      states := states[name := Pending.Unstate];
    }

    method GetSession(now: Time) returns (cookie: Option<Cookie>)
      ensures cookie == GetView().Session(now)
    {
      cookie := if Validate(jar.main, now) then jar.main else None;
    }

    method SetSession(cookie: Cookie)
      modifies this`mainWrite
      ensures GetView() == old(GetView()).Set(cookie)
    {
      mainWrite := Stored(cookie);
    }

    method ClearSession()
      modifies this`mainWrite
      ensures GetView() == old(GetView()).Clear()
    {
      mainWrite := Cleared;
    }
  }
}
