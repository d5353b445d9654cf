/** The toplevel's record of unsupported savefile commands. */
module SavefileToplevel {
  import opened Vectors
  import opened Savefile

  class Toplevel {
    const savefileCommands: seq<string>
    const savefileSubcommands: map<string, seq<string>>
    var unsupportedCommands: seq<string>
    var unsupportedSubcommands: map<string, seq<string>>

    function Supported(): Known {
      Known(savefileCommands, savefileSubcommands)
    }

    function Remembered(): Unsupported
      reads this
    {
      Unsupported(unsupportedCommands, unsupportedSubcommands)
    }

    /** What is remembered as unsupported is not supported. */
    ghost predicate Valid()
      reads this
    {
      forall c | c in unsupportedCommands :: c !in savefileCommands
    }

    constructor (known: Known)
      ensures Valid() && Supported() == known && Remembered() == NOTHING
    {
      savefileCommands, savefileSubcommands := known.commands, known.subcommands;
      unsupportedCommands, unsupportedSubcommands := [], map[];
    }

    method Find(names: seq<string>, name: string) returns (found: bool)
      ensures found <==> name in names
    {
      found := false;
      for i := 0 to |names|
        invariant found <==> name in names[..i]
      {
        if names[i] == name {
          found := true;
        }
      }
      assert names[..|names|] == names;
    }

    method HandleCommand(line: Line)
      requires Valid()
      modifies this
      ensures Valid() && Remembered() == Handle(Supported(), old(Remembered()), line)
    {
      ExtendByOne(unsupportedCommands, savefileCommands, line.name);
      var knownCommand := Find(savefileCommands, line.name);
      if !knownCommand {
        var seen := Find(unsupportedCommands, line.name);
        if !seen {
          unsupportedCommands := unsupportedCommands + [line.name];
        }
      }
      if line.subcommands.List? {
        var known := if knownCommand then Get(savefileSubcommands, line.name) else [];
        var extended := ExtendSubcommands(Get(unsupportedSubcommands, line.name), known, line.subcommands.names);
        unsupportedSubcommands := unsupportedSubcommands[line.name := extended];
      }
    }

    method ExtendSubcommands(have: seq<string>, known: seq<string>, names: seq<string>) returns (r: seq<string>)
      ensures r == Extend(have, known, names)
    {
      r := have;
      for i := 0 to |names|
        invariant Extend(r, known, names[i..]) == Extend(have, known, names)
      {
        assert names[i..][1..] == names[i + 1..];
        var knownSubcommand := Find(known, names[i]);
        if !knownSubcommand {
          knownSubcommand := Find(r, names[i]);
        }
        if !knownSubcommand {
          r := r + [names[i]];
        }
      }
    }

    method LoadFile(file: seq<Line>)
      requires Remembered() == NOTHING
      modifies this
      ensures Valid() && Remembered() == Load(Supported(), NOTHING, file)
    {
      for i := 0 to |file|
        invariant Valid() && Remembered() == Load(Supported(), NOTHING, file[..i])
      {
        LoadOneMore(Supported(), file, i);
        HandleCommand(file[i]);
      }
      assert file[..|file|] == file;
    }

    /** The declaration of a command, supported or remembered. */
    method Details(c: string, supported: bool) returns (line: Line)
      requires supported <==> c in savefileCommands
      ensures line == Declaration(Supported(), Remembered(), c)
    {
      if supported {
        line := Line(c, List(Get(savefileSubcommands, c) + Get(unsupportedSubcommands, c)));
      } else {
        assert KnownFor(Supported(), c) + Get(unsupportedSubcommands, c) == Get(unsupportedSubcommands, c);
        line := Line(c, List(Get(unsupportedSubcommands, c)));
      }
    }

    method SaveSupported() returns (out: seq<Line>)
      ensures |out| == |savefileCommands|
      ensures forall j | 0 <= j < |out| :: out[j] == Declaration(Supported(), Remembered(), savefileCommands[j])
    {
      out := [];
      for i := 0 to |savefileCommands|
        invariant |out| == i
        invariant forall j | 0 <= j < i :: out[j] == Declaration(Supported(), Remembered(), savefileCommands[j])
      {
        var line := Details(savefileCommands[i], true);
        out := out + [line];
      }
    }

    method SaveRemembered() returns (out: seq<Line>)
      requires Valid()
      ensures |out| == |unsupportedCommands|
      ensures forall j | 0 <= j < |out| :: out[j] == Declaration(Supported(), Remembered(), unsupportedCommands[j])
    {
      out := [];
      for i := 0 to |unsupportedCommands|
        invariant |out| == i
        invariant forall j | 0 <= j < i :: out[j] == Declaration(Supported(), Remembered(), unsupportedCommands[j])
      {
        assert unsupportedCommands[i] in unsupportedCommands;
        var line := Details(unsupportedCommands[i], false);
        out := out + [line];
      }
    }

    method SaveCommandDetails() returns (out: seq<Line>)
      requires Valid()
      ensures out == Save(Supported(), Remembered())
    {
      var supported := SaveSupported();
      var remembered := SaveRemembered();
      out := supported + remembered;
    }
  }
}
