/** The line filter of `get_devices` (utils.py): keep the stripped lines of the
    `v4l2-ctl --list-devices` listing that start with `/dev/video`, and fall back to
    `/dev/video0` when there are none or the command fails. The command itself is not run:
    its output is a parameter, `None` when it fails. */
module Devices {
  import opened Results
  import opened Text

  const VideoPrefix: string := "/dev/video"
  const FallbackDevice: string := "/dev/video0"

  /** A line of the listing names a video device once stripped. */
  predicate IsDeviceLine(line: string) {
    StartsWith(Trim(line), VideoPrefix)
  }

  /** What every listed path looks like: a stripped path under `/dev/video`. */
  predicate IsDevicePath(s: string) {
    StartsWith(s, VideoPrefix) && Stripped(s)
  }

  /** The device paths of a listing: each line that names a video device once stripped,
      stripped, in the order of the listing. */
  function DeviceLines(lines: seq<string>): (r: seq<string>)
    ensures |r| <= |lines|
  {
    if |lines| == 0 then []
    else if IsDeviceLine(lines[0]) then [Trim(lines[0])] + DeviceLines(lines[1..])
    else DeviceLines(lines[1..])
  }

  /** A stripped device line is a device path. */
  lemma {:induction false} DeviceLineIsPath(line: string)
    requires IsDeviceLine(line)
    ensures IsDevicePath(Trim(line))
  {
    var t := Trim(line);
    assert |t| >= |VideoPrefix|;
  }

  /** Every entry is a device path. */
  predicate AllDevicePaths(ds: seq<string>) {
    forall k :: 0 <= k < |ds| ==> IsDevicePath(ds[k])
  }

  lemma {:induction false} AllDevicePathsCons(d: string, ds: seq<string>)
    requires IsDevicePath(d) && AllDevicePaths(ds)
    ensures AllDevicePaths([d] + ds)
  {
    forall k | 0 <= k < |ds| + 1
      ensures IsDevicePath(([d] + ds)[k])
    {
      if k > 0 {
        assert ([d] + ds)[k] == ds[k - 1];
      }
    }
  }

  /** Every entry the filter keeps is a device path. */
  lemma {:induction false} DeviceLinesArePaths(lines: seq<string>)
    ensures AllDevicePaths(DeviceLines(lines))
  {
    if |lines| > 0 {
      DeviceLinesArePaths(lines[1..]);
      if IsDeviceLine(lines[0]) {
        DeviceLineIsPath(lines[0]);
        AllDevicePathsCons(Trim(lines[0]), DeviceLines(lines[1..]));
      }
    }
  }

  /** Some device line of the listing strips to `d`. */
  predicate ListsPath(lines: seq<string>, d: string) {
    exists k :: 0 <= k < |lines| && IsDeviceLine(lines[k]) && Trim(lines[k]) == d
  }

  /** A path is listed exactly when some line of the listing strips to it and it names a
      video device. */
  lemma {:induction false} DeviceLinesMembership(lines: seq<string>, d: string)
    ensures d in DeviceLines(lines) <==> ListsPath(lines, d)
  {
    if |lines| > 0 {
      DeviceLinesMembership(lines[1..], d);
      if exists k :: 0 <= k < |lines| && IsDeviceLine(lines[k]) && Trim(lines[k]) == d {
        var k :| 0 <= k < |lines| && IsDeviceLine(lines[k]) && Trim(lines[k]) == d;
        if k > 0 {
          assert lines[1..][k - 1] == lines[k];
        }
      }
      if exists k :: 0 <= k < |lines| - 1 && IsDeviceLine(lines[1..][k]) && Trim(lines[1..][k]) == d {
        var k :| 0 <= k < |lines| - 1 && IsDeviceLine(lines[1..][k]) && Trim(lines[1..][k]) == d;
        assert lines[k + 1] == lines[1..][k];
      }
    }
  }

  /** `get_devices()` given the output of the listing command, or `None` when the command
      fails. The list is never empty, and every entry names a stripped video device path. */
  function ListDevices(output: Option<string>): (r: seq<string>)
    ensures |r| >= 1
    ensures AllDevicePaths(r)
    ensures output.None? ==> r == [FallbackDevice]
    ensures output.Some? && DeviceLines(SplitLines(output.value)) != [] ==>
              r == DeviceLines(SplitLines(output.value))
  {
    match output
    case None =>
      assert IsDevicePath(FallbackDevice);
      [FallbackDevice]
    case Some(text) =>
      var devices := DeviceLines(SplitLines(text));
      DeviceLinesArePaths(SplitLines(text));
      assert IsDevicePath(FallbackDevice);
      if devices != [] then devices else [FallbackDevice]
  }

  /** When some line of the output names a video device, the list holds exactly the
      stripped device lines. */
  lemma {:induction false} ListedDevices(text: string, d: string)
    ensures DeviceLines(SplitLines(text)) != [] ==>
              (d in ListDevices(Some(text)) <==> ListsPath(SplitLines(text), d))
  {
    var lines := SplitLines(text);
    if DeviceLines(lines) != [] {
      assert ListDevices(Some(text)) == DeviceLines(lines);
      DeviceLinesMembership(lines, d);
    }
  }

  /** When no line names a video device, the list is the fallback alone. */
  lemma {:induction false} NothingListed(text: string)
    requires forall k :: 0 <= k < |SplitLines(text)| ==> !IsDeviceLine(SplitLines(text)[k])
    ensures ListDevices(Some(text)) == [FallbackDevice]
  {
    NoDeviceLines(SplitLines(text));
  }

  lemma {:induction false} NoDeviceLines(lines: seq<string>)
    requires forall k :: 0 <= k < |lines| ==> !IsDeviceLine(lines[k])
    ensures DeviceLines(lines) == []
  {
    if |lines| > 0 {
      assert !IsDeviceLine(lines[0]);
      NoDeviceLines(lines[1..]);
    }
  }
}
