/** `get_auth_config` (utils.py): resolving an `env:NAME` secret against the process
    environment and rendering the two MediaMTX read-credential lines. The environment is
    the map `env`; a name missing from it is an unset variable. */
module Credentials {
  import opened Results
  import opened Errors
  import opened Text
  import opened Values

  /** A resolved read credential: both parts literal and non-empty. */
  datatype Credential = Credential(user: string, secret: string)

  const EnvPrefix: string := "env:"

  /** The password after `env:` substitution. A literal is kept verbatim; a reference
      `env:NAME` is replaced by the variable's value and fails when that is unset or empty. */
  function ResolveSecret(pass: string, env: map<string, string>): (r: Result<string, Error>)
    ensures !StartsWith(pass, EnvPrefix) ==> r == Ok(pass)
    ensures StartsWith(pass, EnvPrefix) ==>
              var name := pass[|EnvPrefix|..];
              && (r.Ok? <==> name in env && env[name] != "")
              && (r.Ok? ==> r.value == env[name])
              && (r.Err? ==> r.error == UnsetSecret(name))
    ensures r.Ok? && r.value != pass ==> StartsWith(pass, EnvPrefix) && r.value != ""
  {
    if StartsWith(pass, EnvPrefix) then
      var name := pass[|EnvPrefix|..];
      if name in env && env[name] != "" then Ok(env[name]) else Err(UnsetSecret(name))
    else Ok(pass)
  }

  /** Writing `env:` in front of a variable name and resolving it reads that variable back. */
  lemma EnvReferenceRoundTrip(name: string, env: map<string, string>)
    ensures name in env && env[name] != "" ==> ResolveSecret(EnvPrefix + name, env) == Ok(env[name])
    ensures name !in env || env[name] == "" ==> ResolveSecret(EnvPrefix + name, env) == Err(UnsetSecret(name))
  {
    var p := EnvPrefix + name;
    assert StartsWith(p, EnvPrefix);
    assert p[|EnvPrefix|..] == name;
  }

  /** The credential an `auth` dict yields, or `None` when it yields none. The dict's `pass`
      is resolved first, so an unset variable is an error whatever the `user` is; a user or
      resolved password that is missing or empty then drops the credential without error. */
  function ResolveAuth(auth: Value, env: map<string, string>): (r: Result<Option<Credential>, Error>)
    ensures !auth.Obj? ==> r.Err? && r.error.Malformed?
    ensures auth.Obj? && !Get(auth.fields, "pass", Str("")).Str? ==> r.Err? && r.error.Malformed?
    ensures auth.Obj? && Get(auth.fields, "pass", Str("")).Str? ==>
              var secret := ResolveSecret(Get(auth.fields, "pass", Str("")).s, env);
              var user := Get(auth.fields, "user", Str(""));
              && (secret.Err? ==> r == Err(secret.error))
              && (secret.Ok? && (!Truthy(user) || secret.value == "") ==> r == Ok(None))
              && (secret.Ok? && Truthy(user) && secret.value != "" && user.Str? ==>
                    r == Ok(Some(Credential(user.s, secret.value))))
    ensures r.Ok? && r.value.Some? ==> r.value.value.user != "" && r.value.value.secret != ""
  {
    match auth
    case Obj(fields) =>
      var user := Get(fields, "user", Str(""));
      var pass := Get(fields, "pass", Str(""));
      if !pass.Str? then Err(Malformed("auth pass is not a string"))
      else
        var secret :- ResolveSecret(pass.s, env);
        if Truthy(user) && secret != "" then
          match Render(user)
          case None => Err(Unrenderable("auth user"))
          case Some(u) => Ok(Some(Credential(u, secret)))
        else Ok(None)
    case _ => Err(Malformed("auth is not an object"))
  }

  /** The two indented lines of a path entry that restrict reading to one user. */
  function AuthLines(cred: Option<Credential>): string {
    match cred
    case None => ""
    case Some(c) => "    readUser: " + c.user + "\n    readPass: " + c.secret + "\n"
  }

  /** `get_auth_config(auth)`: the auth lines for one camera, `""` when the camera has no
      complete credential. The lines appear exactly when a credential was resolved, and then
      they name the `readUser:` and `readPass:` keys that the auth probe looks for. */
  function AuthConfig(auth: Value, env: map<string, string>): (r: Result<string, Error>)
    ensures r.Ok? <==> ResolveAuth(auth, env).Ok?
    ensures r.Err? ==> r.error == ResolveAuth(auth, env).error
    ensures ResolveAuth(auth, env) == Ok(None) ==> r == Ok("")
    ensures ResolveAuth(auth, env).Ok? && ResolveAuth(auth, env).value.Some? ==>
              var c := ResolveAuth(auth, env).value.value;
              r == Ok("    readUser: " + c.user + "\n    readPass: " + c.secret + "\n")
    ensures r.Ok? ==> (r.value != "" <==> ResolveAuth(auth, env).value.Some?)
    ensures r.Ok? && r.value != "" ==> Contains(r.value, "readUser:") && Contains(r.value, "readPass:")
  {
    var cred :- ResolveAuth(auth, env);
    if cred.Some? then AuthLinesNameKeys(cred.value); Ok(AuthLines(cred))
    else Ok(AuthLines(cred))
  }

  lemma AuthLinesNameKeys(c: Credential)
    ensures Contains(AuthLines(Some(c)), "readUser:") && Contains(AuthLines(Some(c)), "readPass:")
  {
    var lines := AuthLines(Some(c));
    assert lines == "    " + "readUser:" + (" " + c.user + "\n    readPass: " + c.secret + "\n");
    ContainsInfix("    ", "readUser:", " " + c.user + "\n    readPass: " + c.secret + "\n");
    assert lines == ("    readUser: " + c.user + "\n    ") + "readPass:" + (" " + c.secret + "\n");
    ContainsInfix("    readUser: " + c.user + "\n    ", "readPass:", " " + c.secret + "\n");
  }

  /** Read back line by line, the credential text is the user line and the password line,
      for a user and a secret without line boundaries. */
  lemma {:induction false} AuthLinesSplit(c: Credential)
    requires NoBreak(c.user) && NoBreak(c.secret)
    ensures SplitLines(AuthLines(Some(c))) == ["    readUser: " + c.user, "    readPass: " + c.secret]
  {
    var u := "    readUser: " + c.user;
    var p := "    readPass: " + c.secret;
    NoBreakConcat("    readUser: ", c.user);
    NoBreakConcat("    readPass: ", c.secret);
    assert "\n    readPass: " == "\n" + "    readPass: ";
    AuthLinesRegroup("    readUser: ", c.user, "\n", "    readPass: ", c.secret);
    SplitLinesBreak(u, "\n", p + "\n");
    LastLine(p);
  }

  lemma AuthLinesRegroup(u: string, x: string, nl: string, p: string, y: string)
    ensures u + x + (nl + p) + y + nl == (u + x) + nl + ((p + y) + nl)
  {
  }

  /** A line ended by a newline, with nothing after it, is the last line. */
  lemma {:induction false} LastLine(p: string)
    requires NoBreak(p)
    ensures SplitLines(p + "\n") == [p]
  {
    assert p + "\n" == p + "\n" + "";
    SplitLinesBreak(p, "\n", "");
    assert SplitLines("") == [];
  }

  /** A dict of a plain user name and a literal password emits exactly the two lines. */
  lemma {:induction false} LiteralCredentialEmitted(user: string, pass: string, env: map<string, string>)
    requires user != "" && pass != "" && !StartsWith(pass, EnvPrefix)
    ensures AuthConfig(Obj(map["user" := Str(user), "pass" := Str(pass)]), env)
            == Ok("    readUser: " + user + "\n    readPass: " + pass + "\n")
  {
  }

  /** An unresolvable `env:` password is an error even when the user name is empty. */
  lemma {:induction false} UnsetSecretIgnoresUser(user: Value, name: string, env: map<string, string>)
    requires name !in env
    ensures AuthConfig(Obj(map["user" := user, "pass" := Str(EnvPrefix + name)]), env)
            == Err(UnsetSecret(name))
  {
    EnvReferenceRoundTrip(name, env);
  }

  /** Half a credential is dropped silently: a user without a password, or a password
      without a user, yields no lines and no error. A literal password and an `env:NAME`
      password whose variable is set alike. */
  lemma {:induction false} PartialAuthDropped(user: string, pass: string, name: string,
                                              env: map<string, string>)
    requires !StartsWith(pass, EnvPrefix)
    ensures AuthConfig(Obj(map["user" := Str(user)]), env) == Ok("")
    ensures AuthConfig(Obj(map["pass" := Str(pass)]), env) == Ok("")
    ensures name in env && env[name] != "" ==>
              AuthConfig(Obj(map["pass" := Str(EnvPrefix + name)]), env) == Ok("")
  {
    assert !StartsWith("", EnvPrefix);
    EnvReferenceRoundTrip(name, env);
  }
}
