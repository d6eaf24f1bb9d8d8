/** The command line of the GUI (GUIOPtion in AmatsukazeGUI/Server/Misc.cs): how it is
    launched (standalone, as the server, or as a client of one) and the server's port.

    int.Parse is a parameter of the model, `parseInt`, which gives None where the source
    raises (malformed text, or a value outside 32 bits). Reading the argument after a
    trailing `-p` or `-l` raises IndexOutOfRangeException in the source; both exceptions
    appear as Err values of the scanning function, and the object can only be built from
    arguments that raise neither. */
module GuiOption {
  import opened Wrappers

  /** C#'s int. */
  newtype int32 = x: int | -0x8000_0000 <= x < 0x8000_0000

  datatype LaunchType = Standalone | Server | Client

  /** The two fields of the options object. */
  datatype Settings = Settings(launchType: LaunchType, serverPort: int32)

  /** The field initialisers: standalone, port 32768. */
  const DefaultSettings: Settings := Settings(Standalone, 32768)

  /** The exceptions the constructor can raise. */
  datatype OptionError =
    | MissingValue(option: string)  // args[i + 1] read past the end
    | BadNumber(text: string)       // int.Parse rejected the text

  predicate IsPortFlag(arg: string)
  {
    arg == "-p" || arg == "--port"
  }

  predicate IsLaunchFlag(arg: string)
  {
    arg == "-l" || arg == "--launch"
  }

  /** The launch type named by the argument after `-l`: anything but the two known
      names means a client. */
  function LaunchTypeFromName(opt: string): (t: LaunchType)
    ensures t == Standalone <==> opt == "standalone"
    ensures t == Server <==> opt == "server"
    ensures t == Client <==> opt != "standalone" && opt != "server"
  {
    if opt == "standalone" then Standalone
    else if opt == "server" then Server
    else Client
  }

  /** The constructor's loop from index `i` on, with `cur` the fields so far. */
  function ScanFrom(args: seq<string>, i: nat, cur: Settings, parseInt: string -> Option<int32>)
    : (r: Result<Settings, OptionError>)
    ensures r.Err? ==> exists k :: i <= k < |args| && (IsPortFlag(args[k]) || IsLaunchFlag(args[k]))
    decreases |args| - i
  {
    if i >= |args| then Ok(cur)
    else if IsPortFlag(args[i]) then
      if i + 1 >= |args| then Err(MissingValue(args[i]))
      else match parseInt(args[i + 1])
        case None => Err(BadNumber(args[i + 1]))
        case Some(port) => ScanFrom(args, i + 2, cur.(serverPort := port), parseInt)
    else if IsLaunchFlag(args[i]) then
      if i + 1 >= |args| then Err(MissingValue(args[i]))
      else ScanFrom(args, i + 1, cur.(launchType := LaunchTypeFromName(args[i + 1])), parseInt)
    else ScanFrom(args, i + 1, cur, parseInt)
  }

  /** What `new GUIOPtion(args)` produces: the scan starts at index 1 from the defaults. */
  function ParseOptions(args: seq<string>, parseInt: string -> Option<int32>): (r: Result<Settings, OptionError>)
    ensures |args| <= 1 ==> r == Ok(DefaultSettings)
    ensures r.Err? ==> exists k :: 1 <= k < |args| && (IsPortFlag(args[k]) || IsLaunchFlag(args[k]))
  {
    ScanFrom(args, 1, DefaultSettings, parseInt)
  }

  /** The scan from `i` on sees only `args[i..]`. */
  lemma {:induction false} ScanSeesOnlyRest(args: seq<string>, i: nat, args': seq<string>, i': nat,
                                            cur: Settings, parseInt: string -> Option<int32>)
    requires i <= |args| && i' <= |args'| && args[i..] == args'[i'..]
    ensures ScanFrom(args, i, cur, parseInt) == ScanFrom(args', i', cur, parseInt)
    decreases |args| - i
  {
    if i < |args| {
      assert args[i] == args[i..][0] && args'[i'] == args'[i'..][0];
      if i + 1 < |args| {
        assert args[i + 1] == args[i..][1] && args'[i' + 1] == args'[i'..][1];
      }
      assert args[i + 1..] == args[i..][1..] && args'[i' + 1..] == args'[i'..][1..];
      if IsPortFlag(args[i]) && i + 1 < |args| {
        assert args[i + 2..] == args[i..][2..] && args'[i' + 2..] == args'[i'..][2..];
        match parseInt(args[i + 1])
        case None =>
        case Some(port) =>
          ScanSeesOnlyRest(args, i + 2, args', i' + 2, cur.(serverPort := port), parseInt);
      } else if IsLaunchFlag(args[i]) && i + 1 < |args| {
        ScanSeesOnlyRest(args, i + 1, args', i' + 1, cur.(launchType := LaunchTypeFromName(args[i + 1])), parseInt);
      } else if !IsPortFlag(args[i]) && !IsLaunchFlag(args[i]) {
        ScanSeesOnlyRest(args, i + 1, args', i' + 1, cur, parseInt);
      }
    }
  }

  /** args[0] is never interpreted: whatever it is, the outcome is the same. */
  lemma ProgramNameIgnored(name: string, other: string, rest: seq<string>, parseInt: string -> Option<int32>)
    ensures ParseOptions([name] + rest, parseInt) == ParseOptions([other] + rest, parseInt)
  {
    assert ([name] + rest)[1..] == rest == ([other] + rest)[1..];
    ScanSeesOnlyRest([name] + rest, 1, [other] + rest, 1, DefaultSettings, parseInt);
  }

  /** Arguments that are neither flag leave the fields as they are. */
  lemma {:induction false} NoFlagsKeepSettings(args: seq<string>, i: nat, cur: Settings, parseInt: string -> Option<int32>)
    requires forall k :: i <= k < |args| ==> !IsPortFlag(args[k]) && !IsLaunchFlag(args[k])
    ensures ScanFrom(args, i, cur, parseInt) == Ok(cur)
    decreases |args| - i
  {
    if i < |args| {
      NoFlagsKeepSettings(args, i + 1, cur, parseInt);
    }
  }

  /** Where the fields come from: each final field is the one it started with, or was set
      by some flag's following argument (the port parsed from it, the launch type named
      by it). */
  lemma {:induction false} ScanProvenance(args: seq<string>, i: nat, cur: Settings, parseInt: string -> Option<int32>)
    ensures var r := ScanFrom(args, i, cur, parseInt);
      r.Ok? ==>
        && (r.value.serverPort == cur.serverPort ||
            exists k :: i <= k < |args| - 1 && IsPortFlag(args[k]) && parseInt(args[k + 1]) == Some(r.value.serverPort))
        && (r.value.launchType == cur.launchType ||
            exists k :: i <= k < |args| - 1 && IsLaunchFlag(args[k]) && LaunchTypeFromName(args[k + 1]) == r.value.launchType)
    decreases |args| - i
  {
    if i < |args| {
      if IsPortFlag(args[i]) {
        if i + 1 < |args| && parseInt(args[i + 1]).Some? {
          ScanProvenance(args, i + 2, cur.(serverPort := parseInt(args[i + 1]).value), parseInt);
        }
      } else if IsLaunchFlag(args[i]) {
        if i + 1 < |args| {
          ScanProvenance(args, i + 1, cur.(launchType := LaunchTypeFromName(args[i + 1])), parseInt);
        }
      } else {
        ScanProvenance(args, i + 1, cur, parseInt);
      }
    }
  }

  /** The scan fails only at a flag: a trailing flag, or a port flag whose argument does
      not parse. */
  lemma {:induction false} ScanFailsOnlyAtFlag(args: seq<string>, i: nat, cur: Settings, parseInt: string -> Option<int32>)
    ensures var r := ScanFrom(args, i, cur, parseInt);
      && (r.Err? && r.error.MissingValue? ==>
            |args| > 0 && (IsPortFlag(args[|args| - 1]) || IsLaunchFlag(args[|args| - 1])) && r.error.option == args[|args| - 1])
      && (r.Err? && r.error.BadNumber? ==>
            exists k :: i <= k < |args| - 1 && IsPortFlag(args[k]) && args[k + 1] == r.error.text && parseInt(args[k + 1]).None?)
    decreases |args| - i
  {
    if i < |args| {
      if IsPortFlag(args[i]) {
        if i + 1 < |args| && parseInt(args[i + 1]).Some? {
          ScanFailsOnlyAtFlag(args, i + 2, cur.(serverPort := parseInt(args[i + 1]).value), parseInt);
        }
      } else if IsLaunchFlag(args[i]) {
        if i + 1 < |args| {
          ScanFailsOnlyAtFlag(args, i + 1, cur.(launchType := LaunchTypeFromName(args[i + 1])), parseInt);
        }
      } else {
        ScanFailsOnlyAtFlag(args, i + 1, cur, parseInt);
      }
    }
  }

  /** With no flags the defaults stand: standalone, port 32768. */
  lemma DefaultsWithoutFlags(args: seq<string>, parseInt: string -> Option<int32>)
    requires forall k :: 1 <= k < |args| ==> !IsPortFlag(args[k]) && !IsLaunchFlag(args[k])
    ensures ParseOptions(args, parseInt) == Ok(Settings(Standalone, 32768))
  {
    NoFlagsKeepSettings(args, 1, DefaultSettings, parseInt);
  }

  /** `-p` consumes its argument, `-l` does not: the argument after `-l` is scanned again,
      so in `-l -p 80` the `-p` both names a client launch and sets the port. */
  lemma LaunchValueIsRescanned(parseInt: string -> Option<int32>)
    requires parseInt("80") == Some(80)
    ensures ParseOptions(["gui", "-l", "-p", "80"], parseInt) == Ok(Settings(Client, 80))
    ensures ParseOptions(["gui", "-p", "80", "-l", "server"], parseInt) == Ok(Settings(Server, 80))
    ensures ParseOptions(["gui", "--launch"], parseInt) == Err(MissingValue("--launch"))
  {
  }

  /** GUIOPtion. */
  class GuiOption {
    var launchType: LaunchType
    var serverPort: int32

    constructor (args: seq<string>, parseInt: string -> Option<int32>)
      requires ParseOptions(args, parseInt).Ok?
      ensures Settings(launchType, serverPort) == ParseOptions(args, parseInt).value
    {
      launchType := Standalone;
      serverPort := 32768;
      new;
      var i := 1;
      while i < |args|
        invariant 1 <= i
        invariant ScanFrom(args, i, Settings(launchType, serverPort), parseInt) == ParseOptions(args, parseInt)
        decreases |args| - i
      {
        var arg := args[i];
        if arg == "-p" || arg == "--port" {
          serverPort := parseInt(args[i + 1]).value;
          i := i + 1;
        } else if arg == "-l" || arg == "--launch" {
          var opt := args[i + 1];
          if opt == "standalone" {
            launchType := Standalone;
          } else if opt == "server" {
            launchType := Server;
          } else {
            launchType := Client;
          }
        }
        i := i + 1;
      }
    }
  }
}
