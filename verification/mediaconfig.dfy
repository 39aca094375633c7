/** `write_yml` and the substring probe of `parse_yml_auth` (utils.py). `write_yml` checks
    every camera in list order (device exists, framerate is digits, bitrate is truthy, the
    password resolves) and raises at the first failure before opening the file, so a failed
    compile writes nothing. Otherwise it overwrites `mediamtx.yml` with a fixed header and one
    `cam{i}` path entry per camera. The file system is the set `existing` of paths that exist
    and the environment is the map `env`. */
module MediaConfig {
  import opened Results
  import opened Errors
  import opened Text
  import opened Values
  import opened Credentials

  /** A camera that passed validation, with its fields as they are written out. */
  datatype Camera = Camera(device: string, framerate: string, bitrate: string, auth: Option<Credential>)

  /** What validation guarantees of a camera. */
  predicate Valid(c: Camera, existing: set<string>) {
    && c.device in existing
    && IsDigits(c.framerate)
    && c.bitrate != ""
    && (c.auth.Some? ==> c.auth.value.user != "" && c.auth.value.secret != "")
  }

  /** The device camera `i` reads when its entry names none. */
  function DefaultDevice(i: nat): string {
    "/dev/video" + NatStr(i)
  }

  /** The fields of camera entry `cam`, each with the default `write_yml` substitutes. */
  function DeviceField(i: nat, cam: map<string, Value>): Value {
    Get(cam, "device", Str(DefaultDevice(i)))
  }

  function FramerateField(cam: map<string, Value>): Value {
    Get(cam, "framerate", Str("30"))
  }

  function BitrateField(cam: map<string, Value>): Value {
    Get(cam, "bitrate", Str("800k"))
  }

  function AuthField(cam: map<string, Value>): Value {
    Get(cam, "auth", Obj(map[]))
  }

  /** The compiler's framerate check: the value renders as a string of digits. */
  predicate FramerateAccepted(v: Value) {
    Render(v).Some? && IsDigits(Render(v).value)
  }

  /** The body of the `write_yml` loop for camera `i`, up to the text it appends. It succeeds
      exactly when the device exists, the framerate renders as digits, the bitrate is truthy
      and the auth dict resolves; each failure is reported with the check that raised it, in
      the order the source performs the checks. The auth dict is resolved before the entry
      text renders the bitrate, so an auth failure wins over an unrenderable bitrate. */
  function ValidateCamera(i: nat, cam: Value, existing: set<string>, env: map<string, string>)
    : (r: Result<Camera, Error>)
    ensures r.Ok? ==> Valid(r.value, existing)
    ensures !cam.Obj? ==> r.Err? && r.error.Malformed?
    ensures cam.Obj? ==>
              var dev := DeviceField(i, cam.fields);
              && (!dev.Str? ==> r.Err? && r.error.Malformed?)
              && (dev.Str? && dev.s !in existing ==> r == Err(MissingDevice(dev.s)))
              && ((dev.Str? && dev.s in existing && !FramerateAccepted(FramerateField(cam.fields)))
                    ==> r == Err(BadFramerate(i)))
              && ((dev.Str? && dev.s in existing && FramerateAccepted(FramerateField(cam.fields))
                   && !Truthy(BitrateField(cam.fields))) ==> r == Err(EmptyBitrate(i)))
    ensures (&& cam.Obj? && DeviceField(i, cam.fields).Str? && DeviceField(i, cam.fields).s in existing
             && FramerateAccepted(FramerateField(cam.fields)) && Truthy(BitrateField(cam.fields)))
            ==> (&& (ResolveAuth(AuthField(cam.fields), env).Err?
                     ==> r == Err(ResolveAuth(AuthField(cam.fields), env).error))
                 && ((ResolveAuth(AuthField(cam.fields), env).Ok? && Render(BitrateField(cam.fields)).None?)
                     ==> r == Err(Unrenderable("bitrate"))))
    ensures r.Ok? <==>
              && cam.Obj?
              && DeviceField(i, cam.fields).Str? && DeviceField(i, cam.fields).s in existing
              && FramerateAccepted(FramerateField(cam.fields))
              && Truthy(BitrateField(cam.fields)) && Render(BitrateField(cam.fields)).Some?
              && ResolveAuth(AuthField(cam.fields), env).Ok?
    ensures r.Ok? ==>
              && r.value.device == DeviceField(i, cam.fields).s
              && Some(r.value.framerate) == Render(FramerateField(cam.fields))
              && Some(r.value.bitrate) == Render(BitrateField(cam.fields))
              && r.value.auth == ResolveAuth(AuthField(cam.fields), env).value
  {
    match cam
    case Obj(fields) =>
      var dev := DeviceField(i, fields);
      if !dev.Str? then Err(Malformed("device is not a string"))
      else if dev.s !in existing then Err(MissingDevice(dev.s))
      else if !FramerateAccepted(FramerateField(fields)) then Err(BadFramerate(i))
      else if !Truthy(BitrateField(fields)) then Err(EmptyBitrate(i))
      else
        var cred :- ResolveAuth(AuthField(fields), env);
        if Render(BitrateField(fields)).None? then Err(Unrenderable("bitrate"))
        else Ok(Camera(dev.s, Render(FramerateField(fields)).value, Render(BitrateField(fields)).value, cred))
    case _ => Err(Malformed("camera entry is not an object"))
  }

  /** An empty camera dict takes every default: device `/dev/video{i}`, framerate `30`,
      bitrate `800k` and no credential. */
  lemma {:induction false} EmptyEntryTakesDefaults(i: nat, existing: set<string>, env: map<string, string>)
    requires DefaultDevice(i) in existing
    ensures ValidateCamera(i, Obj(map[]), existing, env)
            == Ok(Camera(DefaultDevice(i), "30", "800k", None))
  {
    assert IsDigits("30");
    assert !StartsWith("", EnvPrefix);
  }

  /** The framerate check is `isdigit`, not positivity: `"0"` and `0` both pass. */
  lemma {:induction false} ZeroFramerateAccepted()
    ensures FramerateAccepted(Str("0")) && FramerateAccepted(Int(0))
    ensures !FramerateAccepted(Int(-1)) && !FramerateAccepted(Str("")) && !FramerateAccepted(Null)
  {
    assert NatStr(0) == "0";
    assert IntStr(-1) == "-1";
    assert !IsAsciiDigit('-');
    assert !IsAsciiDigit('N');
  }

  /** The auth dict is resolved before the bitrate is rendered: an entry whose bitrate is a
      list, which the entry text could not render, still fails on its unset `env:` password. */
  lemma {:induction false} AuthFailsBeforeBitrateRender(i: nat, device: string, name: string,
                                                         existing: set<string>, env: map<string, string>)
    requires device in existing && name !in env
    ensures ValidateCamera(i, Obj(map["device" := Str(device), "bitrate" := Arr([Int(1)]),
                                      "auth" := Obj(map["pass" := Str(EnvPrefix + name)])]), existing, env)
            == Err(UnsetSecret(name))
  {
    assert IsDigits("30");
    EnvReferenceRoundTrip(name, env);
  }

  /** Camera `j` is the first of `cams[i..]` that fails validation. */
  predicate FirstFailure(cams: seq<Value>, i: nat, j: int, existing: set<string>, env: map<string, string>) {
    FirstErr(Checks(cams, existing, env), i, j)
  }

  /** The outcome of validating each camera on its own, in list order. */
  function Checks(cams: seq<Value>, existing: set<string>, env: map<string, string>)
    : (rs: seq<Result<Camera, Error>>)
    ensures |rs| == |cams|
    ensures forall j :: 0 <= j < |cams| ==> rs[j] == ValidateCamera(j, cams[j], existing, env)
  {
    seq(|cams|, j requires 0 <= j < |cams| => ValidateCamera(j, cams[j], existing, env))
  }

  /** `rs[j]` is the first failure in `rs[i..]`. */
  predicate FirstErr<T>(rs: seq<Result<T, Error>>, i: nat, j: int) {
    i <= j < |rs| && rs[j].Err? && forall k :: i <= k < j ==> rs[k].Ok?
  }

  /** The loop of `write_yml` over per-camera outcomes: stop at the first failure, otherwise
      collect every value in order. */
  function Collect<T>(rs: seq<Result<T, Error>>, i: nat): (r: Result<seq<T>, Error>)
    requires i <= |rs|
    ensures r.Ok? <==> forall j :: i <= j < |rs| ==> rs[j].Ok?
    ensures r.Ok? ==> |r.value| == |rs| - i
    ensures r.Ok? ==> forall j :: i <= j < |rs| ==> rs[j] == Ok(r.value[j - i])
    ensures r.Err? ==> exists j :: FirstErr(rs, i, j) && r.error == rs[j].error
    decreases |rs| - i
  {
    if i == |rs| then Ok([])
    else if rs[i].Err? then
      assert FirstErr(rs, i, i);
      Err(rs[i].error)
    else
      var rest := Collect(rs, i + 1);
      if rest.Err? then
        var j :| FirstErr(rs, i + 1, j) && rest.error == rs[j].error;
        assert FirstErr(rs, i, j);
        Err(rest.error)
      else
        Ok([rs[i].value] + rest.value)
  }

  /** The fixed pieces of the init command: capture from a V4L2 device, encode with x264,
      publish over RTSP to the server's own port. */
  const Capture: string := "ffmpeg -f v4l2"
  const Encoder: string := " -c:v libx264 -pix_fmt yuv420p -preset ultrafast"
  const Publish: string := " -f rtsp rtsp://localhost:$RTSP_PORT"
  const Restart: string := "\n    runOnInitRestart: yes\n"

  /** The command-line pieces that depend on the camera: the capture source, the encoder
      bitrate and the RTSP path `/cam{i}`. */
  function Source(c: Camera): string {
    " -framerate " + c.framerate + " -i " + c.device
  }

  function Rate(c: Camera): string {
    " -b:v " + c.bitrate
  }

  function Target(i: nat): string {
    "/cam" + NatStr(i)
  }

  /** The command MediaMTX runs for camera `i`: capture from the device at the framerate,
      encode at the bitrate and publish to the server's own path `/cam{i}`. */
  function Command(i: nat, c: Camera): string {
    Capture + Source(c) + Encoder + Rate(c) + Publish + Target(i)
  }

  /** The key line of the path entry for camera `i`. */
  function Key(i: nat): string {
    "  cam" + NatStr(i) + ":\n    runOnInit: "
  }

  /** The path entry for camera `i`: the key `cam{i}`, the init command, restart-on-init,
      and the auth lines when there is a credential. */
  function Entry(i: nat, c: Camera): string {
    Key(i) + Command(i, c) + Restart + AuthLines(c.auth)
  }

  /** The entries of `cs`, numbered from `from`, as the loop appends them to `paths`. */
  function Entries(cs: seq<Camera>, from: nat): string
    decreases |cs|
  {
    if |cs| == 0 then "" else Entry(from, cs[0]) + Entries(cs[1..], from + 1)
  }

  /** The document text outside the path entries. */
  const Header: string := "\nlogLevel: info\n\n# Default RTSP port\nrtspAddress: :8554\n\npaths:\n"

  /** The whole `mediamtx.yml` for validated cameras. */
  function Emit(cs: seq<Camera>): string {
    Header + Entries(cs, 0) + "\n"
  }

  /** `write_yml(cams)`: the document it writes, or the error it raises before writing.
      It succeeds exactly when every camera validates, and otherwise reports the first
      failing camera's error. */
  function WriteYml(cams: seq<Value>, existing: set<string>, env: map<string, string>)
    : (r: Result<string, Error>)
    ensures r.Ok? <==> forall j :: 0 <= j < |cams| ==> ValidateCamera(j, cams[j], existing, env).Ok?
    ensures r.Err? ==> exists j :: FirstFailure(cams, 0, j, existing, env)
                                   && r.error == ValidateCamera(j, cams[j], existing, env).error
    ensures r.Ok? ==> exists cs: seq<Camera> ::
                        && |cs| == |cams|
                        && (forall j :: 0 <= j < |cams| ==> ValidateCamera(j, cams[j], existing, env) == Ok(cs[j]))
                        && r.value == Emit(cs)
    ensures |cams| == 0 ==> r == Ok(Header + "\n")
  {
    var rs := Checks(cams, existing, env);
    var c := Collect(rs, 0);
    if c.Err? then
      var j :| FirstErr(rs, 0, j) && c.error == rs[j].error;
      assert FirstFailure(cams, 0, j, existing, env);
      Err(c.error)
    else
      assert |cams| == 0 ==> c.value == [] && Header + Entries([], 0) + "\n" == Header + "\n";
      Ok(Emit(c.value))
  }

  /** The configuration file after a compile: replaced whole on success, untouched on failure. */
  function WriteFile(prior: string, cams: seq<Value>, existing: set<string>, env: map<string, string>)
    : (after: string)
    ensures WriteYml(cams, existing, env).Err? ==> after == prior
    ensures WriteYml(cams, existing, env).Ok? ==> after == WriteYml(cams, existing, env).value
  {
    match WriteYml(cams, existing, env)
    case Ok(doc) => doc
    case Err(_) => prior
  }

  /** The entries of `cs`, one string per camera, in input order. */
  function EntryList(cs: seq<Camera>, from: nat): (r: seq<string>)
    ensures |r| == |cs| && forall j :: 0 <= j < |cs| ==> r[j] == Entry(from + j, cs[j])
  {
    seq(|cs|, j requires 0 <= j < |cs| => Entry(from + j, cs[j]))
  }

  function Concat(ss: seq<string>): string
    decreases |ss|
  {
    if |ss| == 0 then "" else ss[0] + Concat(ss[1..])
  }

  /** The accumulated `paths` text is exactly the N entries `cam{from}`, `cam{from+1}`, ...
      in input order, with nothing between them. */
  lemma {:induction false} EntriesInOrder(cs: seq<Camera>, from: nat)
    ensures Entries(cs, from) == Concat(EntryList(cs, from))
    decreases |cs|
  {
    if |cs| > 0 {
      EntriesInOrder(cs[1..], from + 1);
      var l := EntryList(cs, from);
      assert l[1..] == EntryList(cs[1..], from + 1);
    }
  }

  /** Each entry carries its camera's framerate, device and bitrate in the init command,
      publishes to `/cam{i}` and asks for restart-on-init. */
  lemma {:induction false} EntryFields(i: nat, c: Camera)
    ensures Contains(Entry(i, c), Source(c))
    ensures Contains(Entry(i, c), Rate(c))
    ensures Contains(Entry(i, c), Target(i) + Restart)
  {
    CommandHasSource(i, c);
    CommandHasRate(i, c);
    InEntry(i, c, Source(c));
    InEntry(i, c, Rate(c));
    TargetBeforeRestart(i, c);
  }

  lemma {:induction false} CommandHasSource(i: nat, c: Camera)
    ensures Contains(Command(i, c), Source(c))
  {
    ContainsSelf(Source(c));
    ContainsSuffix(Capture, Source(c), Source(c));
    ContainsPrefix(Capture + Source(c), Encoder, Source(c));
    ContainsPrefix(Capture + Source(c) + Encoder, Rate(c), Source(c));
    ContainsPrefix(Capture + Source(c) + Encoder + Rate(c), Publish, Source(c));
    ContainsPrefix(Capture + Source(c) + Encoder + Rate(c) + Publish, Target(i), Source(c));
  }

  lemma {:induction false} CommandHasRate(i: nat, c: Camera)
    ensures Contains(Command(i, c), Rate(c))
  {
    ContainsSelf(Rate(c));
    ContainsSuffix(Capture + Source(c) + Encoder, Rate(c), Rate(c));
    ContainsPrefix(Capture + Source(c) + Encoder + Rate(c), Publish, Rate(c));
    ContainsPrefix(Capture + Source(c) + Encoder + Rate(c) + Publish, Target(i), Rate(c));
  }

  /** Whatever the command contains, the entry contains. */
  lemma {:induction false} InEntry(i: nat, c: Camera, t: string)
    requires Contains(Command(i, c), t)
    ensures Contains(Entry(i, c), t)
  {
    ContainsSuffix(Key(i), Command(i, c), t);
    ContainsPrefix(Key(i) + Command(i, c), Restart, t);
    ContainsPrefix(Key(i) + Command(i, c) + Restart, AuthLines(c.auth), t);
  }

  lemma {:induction false} TargetBeforeRestart(i: nat, c: Camera)
    ensures Contains(Entry(i, c), Target(i) + Restart)
  {
    var head := Key(i) + (Capture + Source(c) + Encoder + Rate(c) + Publish);
    assert Key(i) + Command(i, c) + Restart == head + (Target(i) + Restart);
    ContainsInfix(head, Target(i) + Restart, AuthLines(c.auth));
  }

  /** The entry is the text of the source's f-string for camera `i`, piece for piece. */
  lemma {:induction false} EntryText(i: nat, c: Camera)
    ensures Entry(i, c)
            == "  cam" + NatStr(i) + ":\n    runOnInit: ffmpeg -f v4l2 -framerate " + c.framerate
               + " -i " + c.device + " -c:v libx264 -pix_fmt yuv420p -preset ultrafast -b:v "
               + c.bitrate + " -f rtsp rtsp://localhost:$RTSP_PORT/cam" + NatStr(i)
               + "\n    runOnInitRestart: yes\n" + AuthLines(c.auth)
  {
    FStringPieces();
    EntryRegroup("  cam", NatStr(i), ":\n    runOnInit: ", Capture, " -framerate ", c.framerate, " -i ", c.device,
            Encoder, " -b:v ", c.bitrate, Publish, "/cam", Restart, AuthLines(c.auth));
  }

  /** Concatenation regrouped from the named pieces of an entry to the pieces of its f-string. */
  lemma EntryRegroup(cam: string, n: string, k: string, cap: string, fr: string, f: string, i: string,
                d: string, e: string, bv: string, b: string, p: string, c: string, rs: string, a: string)
    ensures (cam + n + k) + (cap + (fr + f + i + d) + e + (bv + b) + p + (c + n)) + rs + a
            == cam + n + (k + cap + fr) + f + i + d + (e + bv) + b + (p + c) + n + rs + a
  {
  }

  /** The literal pieces of the entry's f-string, as the named pieces make them up. */
  lemma FStringPieces()
    ensures ":\n    runOnInit: " + Capture + " -framerate " == ":\n    runOnInit: ffmpeg -f v4l2 -framerate "
    ensures Encoder + " -b:v " == " -c:v libx264 -pix_fmt yuv420p -preset ultrafast -b:v "
    ensures Publish + "/cam" == " -f rtsp rtsp://localhost:$RTSP_PORT/cam"
  {
  }

  /** The document is the header, then the entries of the cameras in order, then a final
      newline. */
  lemma {:induction false} EmitLayout(cs: seq<Camera>)
    ensures Emit(cs) == Header + Concat(EntryList(cs, 0)) + "\n"
    ensures StartsWith(Emit(cs), Header)
  {
    EntriesInOrder(cs, 0);
    var e := Concat(EntryList(cs, 0));
    assert (Header + e + "\n")[..|Header|] == Header;
  }

  /** `parse_yml_auth`: the configuration file exists and mentions both credential keys. */
  predicate AuthEnabled(file: Option<string>) {
    file.Some? && Contains(file.value, "readUser:") && Contains(file.value, "readPass:")
  }

  /** The probe holds exactly when the file exists and both keys occur somewhere in it;
      a missing file never passes. */
  lemma {:induction false} AuthProbe(file: Option<string>)
    ensures AuthEnabled(file) <==>
              file.Some? && IsInfix("readUser:", file.value) && IsInfix("readPass:", file.value)
    ensures file.None? ==> !AuthEnabled(file)
  {
    if file.Some? {
      ContainsIff(file.value, "readUser:");
      ContainsIff(file.value, "readPass:");
    }
  }

  lemma {:induction false} ConcatContains(ss: seq<string>, j: nat, t: string)
    requires j < |ss| && Contains(ss[j], t)
    ensures Contains(Concat(ss), t)
    decreases j
  {
    var rest := Concat(ss[1..]);
    if j == 0 {
      ContainsExtend("", ss[0], rest, t);
      assert "" + ss[0] + rest == ss[0] + rest;
    } else {
      assert ss[1..][j - 1] == ss[j];
      ConcatContains(ss[1..], j - 1, t);
      ContainsExtend(ss[0], rest, "", t);
      assert ss[0] + rest + "" == ss[0] + rest;
    }
  }

  /** Any camera with a credential makes the written file pass the auth probe. */
  lemma {:induction false} CredentialEnablesAuthProbe(cs: seq<Camera>, j: nat)
    requires j < |cs| && cs[j].auth.Some?
    ensures AuthEnabled(Some(Emit(cs)))
  {
    var c := cs[j];
    var a := AuthLines(c.auth);
    AuthLinesNameKeys(c.auth.value);
    var pre := Key(j) + Command(j, c) + Restart;
    assert Entry(j, c) == pre + a + "";
    ContainsExtend(pre, a, "", "readUser:");
    ContainsExtend(pre, a, "", "readPass:");
    EntriesInOrder(cs, 0);
    ConcatContains(EntryList(cs, 0), j, "readUser:");
    ConcatContains(EntryList(cs, 0), j, "readPass:");
    var body := Entries(cs, 0);
    ContainsExtend(Header, body, "\n", "readUser:");
    ContainsExtend(Header, body, "\n", "readPass:");
  }
}
