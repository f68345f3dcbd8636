/**
 * The parts of the gorilla/sessions package that the store works with:
 * the session object, its options and the cookie written back to the client.
 */
module Sessions {

  /** A key of `Session.Values` (a Go `interface{}`): a string, or a value of some other dynamic type. */
  datatype Key = StringKey(name: string) | OtherKey(shown: string)

  /** A value of `Session.Values`; `Unsupported` stands for values the JSON encoder may refuse (channels, functions). */
  datatype Value = Null | Bool(b: bool) | Number(n: int) | Text(s: string) | Unsupported(kind: string)

  /** `sessions.Options`: the cookie attributes the store reads. `MaxAge <= 0` asks for deletion. */
  datatype Options = Options(path: string, maxAge: int)

  /** The cookie `http.SetCookie` writes: `sessions.NewCookie(name, value, options)`. */
  datatype Cookie = Cookie(name: string, value: string, options: Options)

  /** `sessions.Session`: mutable per-request state. */
  class Session {
    var id: string
    var values: map<Key, Value>
    var options: Options
    var isNew: bool
    const name: string

    /** `sessions.NewSession(store, name)`: empty values, no ID, zero options, not yet marked new. */
    constructor (name: string)
      ensures this.name == name && id == "" && values == map[]
      ensures options == Options("", 0) && !isNew
    {
      this.name := name;
      id := "";
      values := map[];
      options := Options("", 0);
      isNew := false;
    }
  }
}
