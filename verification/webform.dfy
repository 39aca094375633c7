/** The request handling of `do_POST` (config.py) up to the compile: pick the camera list
    from the JSONC text if it yields one, otherwise build a single camera from the form
    fields, then compile it with `write_yml`. The parsed query is the map `params` from
    field name to its first value; a field that is absent (or was submitted blank, which
    the query parser drops) takes its default. */
module WebForm {
  import opened Results
  import opened Errors
  import opened Text
  import opened Values
  import opened Credentials
  import opened Jsonc
  import opened MediaConfig
  import Rating

  /** The fields of a request as the handler reads them: every text field stripped, or its
      default when absent; every checkbox present or not. */
  datatype Request = Request(
    jsonc: string,
    device: string,
    framerate: string,
    bitrate: string,
    enableAuth: bool,
    user: string,
    pass: string,
    secureNetwork: bool,
    changedPasswords: bool,
    restrictedAccess: bool)

  /** A text field of the query: its value stripped, or `default` (already stripped) when the
      key is absent. */
  function Field(params: map<string, string>, key: string, default: string): (r: string)
    requires Stripped(default)
    ensures Stripped(r)
    ensures key in params ==> r == Trim(params[key])
    ensures key !in params ==> r == default
  {
    TrimUnchanged(default);
    Trim(Get(params, key, default))
  }

  /** The query as the handler reads it. Each text field is the stripped value of its key,
      with no whitespace left at either end, or its default when the key is absent; each
      checkbox is set exactly when its key is present, whatever its value. */
  function ReadRequest(params: map<string, string>): (q: Request)
    ensures && Stripped(q.jsonc) && Stripped(q.device) && Stripped(q.framerate)
            && Stripped(q.bitrate) && Stripped(q.user) && Stripped(q.pass)
    ensures "jsonc" in params ==> q.jsonc == Trim(params["jsonc"])
    ensures "jsonc" !in params ==> q.jsonc == ""
    ensures "device" in params ==> q.device == Trim(params["device"])
    ensures "device" !in params ==> q.device == "/dev/video0"
    ensures "framerate" in params ==> q.framerate == Trim(params["framerate"])
    ensures "framerate" !in params ==> q.framerate == "30"
    ensures "bitrate" in params ==> q.bitrate == Trim(params["bitrate"])
    ensures "bitrate" !in params ==> q.bitrate == "800k"
    ensures "rtsp_user" in params ==> q.user == Trim(params["rtsp_user"])
    ensures "rtsp_user" !in params ==> q.user == ""
    ensures "rtsp_pass" in params ==> q.pass == Trim(params["rtsp_pass"])
    ensures "rtsp_pass" !in params ==> q.pass == ""
    ensures q.enableAuth <==> "enable_auth" in params
    ensures q.secureNetwork <==> "secure_network" in params
    ensures q.changedPasswords <==> "changed_passwords" in params
    ensures q.restrictedAccess <==> "restricted_access" in params
  {
    assert Stripped("/dev/video0") && Stripped("30") && Stripped("800k");
    Request(
      Field(params, "jsonc", ""),
      Field(params, "device", "/dev/video0"),
      Field(params, "framerate", "30"),
      Field(params, "bitrate", "800k"),
      "enable_auth" in params,
      Field(params, "rtsp_user", ""),
      Field(params, "rtsp_pass", ""),
      "secure_network" in params,
      "changed_passwords" in params,
      "restricted_access" in params)
  }

  /** The dict `{'device': ..., 'framerate': ..., 'bitrate': ..., 'auth': ...}`. */
  function CameraDict(device: string, framerate: string, bitrate: string, auth: Value): Value {
    Obj(map["device" := Str(device), "framerate" := Str(framerate), "bitrate" := Str(bitrate),
            "auth" := auth])
  }

  /** The four keys of a form camera, each read back as `write_yml` reads it. */
  lemma {:induction false} CameraDictFields(i: nat, device: string, framerate: string, bitrate: string, auth: Value)
    ensures CameraDict(device, framerate, bitrate, auth).fields.Keys == {"device", "framerate", "bitrate", "auth"}
    ensures DeviceField(i, CameraDict(device, framerate, bitrate, auth).fields) == Str(device)
    ensures FramerateField(CameraDict(device, framerate, bitrate, auth).fields) == Str(framerate)
    ensures BitrateField(CameraDict(device, framerate, bitrate, auth).fields) == Str(bitrate)
    ensures AuthField(CameraDict(device, framerate, bitrate, auth).fields) == auth
  {
    assert |"device"| == 6 && |"framerate"| == 9 && |"bitrate"| == 7 && |"auth"| == 4;
  }

  /** The dict `{'user': ..., 'pass': ...}`. */
  function AuthDict(user: string, pass: string): Value {
    Obj(map["user" := Str(user), "pass" := Str(pass)])
  }

  lemma {:induction false} AuthDictFields(user: string, pass: string)
    ensures Get(AuthDict(user, pass).fields, "user", Str("")) == Str(user)
    ensures Get(AuthDict(user, pass).fields, "pass", Str("")) == Str(pass)
  {
    assert |"user"| == 4 && |"pass"| == 4 && "user"[0] != "pass"[0];
  }

  /** The form fields are acceptable: a device, a digits-only framerate, a bitrate, and
      both credential parts when auth is enabled. */
  predicate FormComplete(q: Request) {
    && q.device != ""
    && IsDigits(q.framerate)
    && q.bitrate != ""
    && (q.enableAuth ==> q.user != "" && q.pass != "")
  }

  /** The `auth` dict of the form: empty unless auth is enabled, and then both parts, each
      required, the user checked first. */
  function FormAuth(q: Request): (r: Result<Value, Error>)
    ensures !q.enableAuth ==> r == Ok(Obj(map[]))
    ensures q.enableAuth && q.user == "" ==> r == Err(MissingFormUser)
    ensures q.enableAuth && q.user != "" && q.pass == "" ==> r == Err(MissingFormPassword)
    ensures q.enableAuth && q.user != "" && q.pass != "" ==> r == Ok(AuthDict(q.user, q.pass))
  {
    if !q.enableAuth then Ok(Obj(map[]))
    else if q.user == "" then Err(MissingFormUser)
    else if q.pass == "" then Err(MissingFormPassword)
    else Ok(AuthDict(q.user, q.pass))
  }

  /** The single camera dict the form describes, checked in the order the handler checks:
      device, framerate, bitrate, then user and password when auth is enabled. Unlike
      `write_yml`, the form path has no fallback for a bad framerate. */
  function FormCamera(q: Request): (r: Result<Value, Error>)
    ensures q.device == "" ==> r == Err(EmptyFormDevice)
    ensures q.device != "" && !IsDigits(q.framerate) ==> r == Err(BadFormFramerate)
    ensures (q.device != "" && IsDigits(q.framerate) && q.bitrate == "") ==> r == Err(EmptyFormBitrate)
    ensures (q.device != "" && IsDigits(q.framerate) && q.bitrate != "") ==>
              (FormAuth(q).Err? ==> r == Err(FormAuth(q).error))
    ensures r.Ok? <==> FormComplete(q)
    ensures r.Ok? ==> r.value == CameraDict(q.device, q.framerate, q.bitrate, FormAuth(q).value)
  {
    if q.device == "" then Err(EmptyFormDevice)
    else if !IsDigits(q.framerate) then Err(BadFormFramerate)
    else if q.bitrate == "" then Err(EmptyFormBitrate)
    else
      var auth :- FormAuth(q);
      Ok(CameraDict(q.device, q.framerate, q.bitrate, auth))
  }

  /** The camera value the JSONC field yields: `[]` when the field is empty, otherwise the
      `cams` entry of the decoded configuration, `[]` when it has none. Text that does not
      decode is an error, and so is a configuration that is not an object. */
  function JsoncCams(q: Request, decode: string -> Option<Value>): (r: Result<Value, Error>)
    ensures q.jsonc == "" ==> r == Ok(Arr([]))
    ensures q.jsonc != "" ==>
              var config := decode(Strip(q.jsonc));
              && (config.None? ==> r == Err(DecodeError))
              && (config.Some? && config.value.Obj? ==> r == Ok(Get(config.value.fields, "cams", Arr([]))))
              && (config.Some? && !config.value.Obj? ==> r.Err? && r.error.Malformed?)
  {
    if q.jsonc == "" then Ok(Arr([]))
    else
      var config :- LoadJsonc(q.jsonc, decode);
      match config
      case Obj(fields) => Ok(Get(fields, "cams", Arr([])))
      case _ => Err(Malformed("configuration is not an object"))
  }

  /** The single-camera list of the form path. */
  function FormCameras(q: Request): (r: Result<seq<Value>, Error>)
    ensures r.Ok? <==> FormCamera(q).Ok?
    ensures r.Ok? ==> r.value == [FormCamera(q).value]
    ensures r.Err? ==> r.error == FormCamera(q).error
  {
    var cam :- FormCamera(q);
    Ok([cam])
  }

  /** The cameras the handler passes to `write_yml`. A truthy camera list from the JSONC
      text wins and is passed on unchanged; otherwise (no text, or no cameras in it) the
      form describes a single camera. A text that fails to decode is an error even when the
      form is complete. */
  function SelectCams(q: Request, decode: string -> Option<Value>): (r: Result<seq<Value>, Error>)
    ensures JsoncCams(q, decode).Err? ==> r == Err(JsoncCams(q, decode).error)
    ensures JsoncCams(q, decode).Ok? && !Truthy(JsoncCams(q, decode).value) ==> r == FormCameras(q)
    ensures JsoncCams(q, decode).Ok? && JsoncCams(q, decode).value.Arr? && Truthy(JsoncCams(q, decode).value)
            ==> r == Ok(JsoncCams(q, decode).value.items)
    ensures r.Ok? ==> |r.value| >= 1
  {
    var cams :- JsoncCams(q, decode);
    if !Truthy(cams) then FormCameras(q)
    else if cams.Arr? then Ok(cams.items)
    else Err(Malformed("cams is not a list"))
  }

  /** With no JSONC text the form alone decides: one camera, or the form's error. */
  lemma {:induction false} FormPathWithoutJsonc(q: Request, decode: string -> Option<Value>)
    requires q.jsonc == ""
    ensures SelectCams(q, decode) == FormCameras(q)
  {
  }

  /** A non-empty JSONC camera list is used whatever the form fields say. */
  lemma {:induction false} JsoncTakesPrecedence(q: Request, r: Request, decode: string -> Option<Value>,
                                                items: seq<Value>)
    requires q.jsonc == r.jsonc && |items| > 0
    requires JsoncCams(q, decode) == Ok(Arr(items))
    ensures SelectCams(q, decode) == SelectCams(r, decode) == Ok(items)
  {
  }

  /** The handler up to the file write: the configuration document, or the error that the
      handler reports as a 400 response. It succeeds exactly when a camera list is selected
      and every camera in it validates; the document then has one entry per selected camera,
      each built from that camera's validated fields. Without JSONC text only a complete form
      gets through. */
  function HandlePost(q: Request, decode: string -> Option<Value>,
                      existing: set<string>, env: map<string, string>): (r: Result<string, Error>)
    ensures SelectCams(q, decode).Err? ==> r == Err(SelectCams(q, decode).error)
    ensures r.Ok? <==> && SelectCams(q, decode).Ok?
                       && forall j :: 0 <= j < |SelectCams(q, decode).value| ==>
                            ValidateCamera(j, SelectCams(q, decode).value[j], existing, env).Ok?
    ensures r.Ok? ==>
              var cams := SelectCams(q, decode).value;
              exists cs: seq<Camera> ::
                && |cs| == |cams|
                && (forall j :: 0 <= j < |cams| ==> ValidateCamera(j, cams[j], existing, env) == Ok(cs[j]))
                && r.value == Emit(cs)
    ensures SelectCams(q, decode).Ok? && r.Err? ==>
              var cams := SelectCams(q, decode).value;
              exists j :: FirstFailure(cams, 0, j, existing, env)
                          && r.error == ValidateCamera(j, cams[j], existing, env).error
    ensures q.jsonc == "" && r.Ok? ==> FormComplete(q)
  {
    var cams :- SelectCams(q, decode);
    WriteYml(cams, existing, env)
  }

  /** A camera built by the form passes every `write_yml` check except, possibly, the device
      existing and an `env:` password resolving: the form already enforced the rest. */
  lemma {:induction false} FormCameraOnlyFailsOnDeviceOrSecret(q: Request, i: nat,
                                                              existing: set<string>, env: map<string, string>)
    requires FormComplete(q)
    ensures var v := ValidateCamera(i, FormCamera(q).value, existing, env);
            || v.Ok?
            || v == Err(MissingDevice(q.device))
            || (v.Err? && v.error.UnsetSecret?)
  {
    var auth := FormAuth(q).value;
    CameraDictFields(i, q.device, q.framerate, q.bitrate, auth);
    assert FramerateAccepted(Str(q.framerate));
    if q.enableAuth {
      AuthDictFields(q.user, q.pass);
    }
    assert auth.Obj? && Get(auth.fields, "pass", Str("")).Str?;
  }

  /** A complete form with auth enabled and a literal password, for a device that exists,
      validates to a camera that carries the form's credential. */
  lemma {:induction false} FormCameraWithCredential(q: Request, existing: set<string>, env: map<string, string>)
    requires FormComplete(q) && q.enableAuth
    requires !StartsWith(q.pass, EnvPrefix)
    requires q.device in existing
    ensures ValidateCamera(0, FormCamera(q).value, existing, env)
            == Ok(Camera(q.device, q.framerate, q.bitrate, Some(Credential(q.user, q.pass))))
  {
    var auth := AuthDict(q.user, q.pass);
    CameraDictFields(0, q.device, q.framerate, q.bitrate, auth);
    AuthDictFields(q.user, q.pass);
    assert ResolveAuth(auth, env) == Ok(Some(Credential(q.user, q.pass)));
    assert FramerateAccepted(Str(q.framerate));
  }

  /** Enabling auth on the form with a literal password, for a device that exists, compiles a
      document that the auth probe recognises as protected. */
  lemma {:induction false} FormAuthEnablesProbe(q: Request, existing: set<string>,
                                                env: map<string, string>, decode: string -> Option<Value>)
    requires q.jsonc == ""
    requires FormComplete(q) && q.enableAuth
    requires !StartsWith(q.pass, EnvPrefix)
    requires q.device in existing
    ensures HandlePost(q, decode, existing, env).Ok?
    ensures AuthEnabled(Some(HandlePost(q, decode, existing, env).value))
  {
    var cams := [FormCamera(q).value];
    assert SelectCams(q, decode) == Ok(cams);
    FormCameraWithCredential(q, existing, env);
    var doc := WriteYml(cams, existing, env);
    assert doc.Ok?;
    var cs: seq<Camera> :| && |cs| == |cams|
                           && (forall j :: 0 <= j < |cams| ==> ValidateCamera(j, cams[j], existing, env) == Ok(cs[j]))
                           && doc.value == Emit(cs);
    assert ValidateCamera(0, cams[0], existing, env) == Ok(cs[0]);
    CredentialEnablesAuthProbe(cs, 0);
  }

  /** The three questionnaire checkboxes, 1 when ticked. */
  function FormAnswers(q: Request): (r: seq<int>)
    ensures |r| == 3 && Rating.Binary(r)
    ensures r[0] == 1 <==> q.secureNetwork
    ensures r[1] == 1 <==> q.changedPasswords
    ensures r[2] == 1 <==> q.restrictedAccess
  {
    [ if q.secureNetwork then 1 else 0,
      if q.changedPasswords then 1 else 0,
      if q.restrictedAccess then 1 else 0 ]
  }

  /** The rating on the result page lies between 0 and 100; it is 100 when at least two
      probes pass and every box is ticked, and never in the High band when at most one probe
      passes. */
  lemma {:induction false} ResultRatingBands(checks: Rating.Checks, q: Request)
    ensures 0 <= Rating.Rating(checks.Values(), FormAnswers(q)) <= 100
    ensures (Rating.Count(checks.Values()) >= 2 && q.secureNetwork && q.changedPasswords && q.restrictedAccess)
            ==> Rating.Rating(checks.Values(), FormAnswers(q)) == 100
    ensures Rating.Count(checks.Values()) <= 1
            ==> Rating.LabelOf(Rating.Rating(checks.Values(), FormAnswers(q))) != Rating.High
  {
    var a := FormAnswers(q);
    assert Rating.NonNegative(a);
    if Rating.Count(checks.Values()) >= 2 && a == [1, 1, 1] {
      Rating.AllYesWithGoodBaseIsFull(checks.Values(), a);
    }
    if Rating.Count(checks.Values()) <= 1 {
      Rating.LowBaseNeverHigh(checks.Values(), a);
    }
  }
}
