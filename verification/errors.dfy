/** The reasons a configuration request is refused. Each `ValueError` the source raises has
    its own constructor; `Malformed` stands for the `AttributeError` and `TypeError` cases
    of ill-typed values, and `Unrenderable` for values whose Python `repr` the model does not
    cover. The web handler turns any of them into a 400 response; the model keeps the kind
    of failure and the datum it names, not the message text. */
module Errors {

  datatype Error =
    /** `json.loads` rejected the comment-stripped text. */
    | DecodeError
    /** `load_jsonc` was given a file path that does not exist. */
    | SourceNotFound(path: string)
    /** A value has the wrong Python type for the operation applied to it
        (`.get` on a non-dict, `.startswith` on a non-str, iterating a non-list, ...). */
    | Malformed(what: string)
    /** `write_yml`: the device path does not exist. */
    | MissingDevice(device: string)
    /** `write_yml`: the framerate of camera `cam` is not a digit string. */
    | BadFramerate(cam: nat)
    /** `write_yml`: the bitrate of camera `cam` is falsy. */
    | EmptyBitrate(cam: nat)
    /** `get_auth_config`: an `env:NAME` secret names an unset or empty variable. */
    | UnsetSecret(variable: string)
    /** A list or dict would be rendered with Python's `repr`, which this model does not cover. */
    | Unrenderable(what: string)
    /** Web form: the device field is whitespace only. */
    | EmptyFormDevice
    /** Web form: the framerate field is not a digit string. */
    | BadFormFramerate
    /** Web form: the bitrate field is whitespace only. */
    | EmptyFormBitrate
    /** Web form: authentication is enabled but the user name is blank. */
    | MissingFormUser
    /** Web form: authentication is enabled but the password is blank. */
    | MissingFormPassword
}
