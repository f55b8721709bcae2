/**
 Client arguments (cmd/kanea/args.go): flags are allowed on either side of the positionals by parsing
 again and again over Go's flag package, whose own rules (stop at the first non-flag, `-x=v` and `-x v`,
 boolean flags, `--`) are written out here as FlagSet.Parse.
 */
module Args {
  import opened Wrappers

  datatype Kind = Switch | Valued

  datatype Error = BadSyntax(arg: string) | Help | NotDefined(name: string) | NeedsArgument(name: string) | InvalidValue(name: string, value: string)

  datatype Assignment = Assignment(name: string, value: string)

  /** The flags a command declares, and which values each takes. */
  datatype Declared = Declared(kinds: map<string, Kind>, takes: (string, string) -> bool)

  const TERMINATOR := "--"

  /** What the flag package reads as a flag: a dash and at least one more character. */
  predicate LooksLikeFlag(arg: string) {
    |arg| >= 2 && arg[0] == '-'
  }

  function Dashes(arg: string): nat
    requires LooksLikeFlag(arg)
  {
    if arg[1] == '-' then 2 else 1
  }

  /** The place of the `=` that ends a flag's name, never its first character. */
  function NameEnd(body: string, from: nat): (i: nat)
    requires from <= |body|
    ensures from <= i <= |body|
    decreases |body| - from
  {
    if from == |body| || body[from] == '=' then from else NameEnd(body, from + 1)
  }

  /** One flag read off the front: what it assigns and how many arguments it took, or why it is refused. */
  datatype Reading = Read(assignment: Assignment, used: nat) | Refused(error: Error)

  function Assign(d: Declared, name: string, value: string, used: nat): Reading {
    if d.takes(name, value) then Read(Assignment(name, value), used) else Refused(InvalidValue(name, value))
  }

  function ReadFlag(d: Declared, args: seq<string>): (r: Reading)
    requires args != [] && LooksLikeFlag(args[0]) && args[0] != TERMINATOR
    ensures r.Read? ==> 0 < r.used <= |args|
  {
    var body := args[0][Dashes(args[0])..];
    if body == "" || body[0] == '-' || body[0] == '=' then Refused(BadSyntax(args[0]))
    else
      var end := NameEnd(body, 1);
      var name, hasValue := body[..end], end < |body|;
      if name !in d.kinds then Refused(if name == "help" || name == "h" then Help else NotDefined(name))
      else if d.kinds[name].Switch? then Assign(d, name, if hasValue then body[end + 1..] else "true", 1)
      else if hasValue then Assign(d, name, body[end + 1..], 1)
      else if |args| > 1 then Assign(d, name, args[1], 2)
      else Refused(NeedsArgument(name))
  }

  /** How a parse ends: everything assigned on the way, and what is left or why it failed. */
  datatype Parse = Parse(given: seq<Assignment>, end: Result<seq<string>, Error>)

  /** FlagSet.Parse: flags until the first argument that is not one. */
  function ParseFlags(d: Declared, given: seq<Assignment>, args: seq<string>): (p: Parse)
    decreases |args|
  {
    if args == [] || !LooksLikeFlag(args[0]) then Parse(given, Ok(args))
    else if args[0] == TERMINATOR then Parse(given, Ok(args[1..]))
    else
      match ReadFlag(d, args)
      case Refused(e) => Parse(given, Err(e))
      case Read(a, used) => ParseFlags(d, given + [a], args[used..])
  }

  // ---- the reference: one scan -------------------------------------------

  /** Left to right, once: a flag is read where it stands, anything else is a positional. */
  function Scan(d: Declared, given: seq<Assignment>, positionals: seq<string>, args: seq<string>): Parse
    requires TERMINATOR !in args
    decreases |args|
  {
    if args == [] then Parse(given, Ok(positionals))
    else if !LooksLikeFlag(args[0]) then Scan(d, given, positionals + [args[0]], args[1..])
    else
      match ReadFlag(d, args)
      case Refused(e) => Parse(given, Err(e))
      case Read(a, used) => Scan(d, given + [a], positionals, args[used..])
  }

  /** Where the first `--` is, or the end. */
  function Terminated(args: seq<string>): (i: nat)
    ensures i <= |args| && TERMINATOR !in args[..i]
    ensures i < |args| ==> args[i] == TERMINATOR
  {
    if args == [] || args[0] == TERMINATOR then 0
    else
      assert forall k :: 0 < k < |args| ==> args[k] == args[1..][k - 1];
      1 + Terminated(args[1..])
  }

  /** What follows the first `--`, verbatim. */
  function TailOf(args: seq<string>): seq<string> {
    if Terminated(args) == |args| then [] else args[Terminated(args) + 1..]
  }

  /** The whole command line by the reference: options stop at the first `--`, whose tail is kept as it is. */
  function Reference(d: Declared, args: seq<string>): Parse {
    var p := Scan(d, [], [], args[..Terminated(args)]);
    match p.end
    case Err(e) => p
    case Ok(positionals) => Parse(p.given, Ok(positionals + TailOf(args)))
  }

  // ---- the loop ----------------------------------------------------------

  class FlagSet {
    const declared: Declared
    var given: seq<Assignment>
    var residual: seq<string>

    constructor (declared: Declared)
      ensures this.declared == declared && given == [] && residual == []
    {
      this.declared, given, residual := declared, [], [];
    }

    method Parse(args: seq<string>) returns (r: Option<Error>)
      modifies this
      ensures var p := ParseFlags(declared, old(given), args);
              && given == p.given
              && match p.end
                 case Ok(rest) => r == None && residual == rest
                 case Err(e) => r == Some(e)
    {
      residual := args;
      while residual != [] && LooksLikeFlag(residual[0])
        invariant ParseFlags(declared, given, residual) == ParseFlags(declared, old(given), args)
        decreases |residual|
      {
        if residual[0] == TERMINATOR {
          residual := residual[1..];
          return None;
        }
        var reading := ReadFlag(declared, residual);
        match reading {
          case Refused(e) =>
            return Some(e);
          case Read(a, used) =>
            given, residual := given + [a], residual[used..];
        }
      }
      return None;
    }

    /** The repeated parse agrees with the single scan: same assignments, same positionals, same failure. */
    method ParseArgs(args: seq<string>) returns (r: Option<Error>)
      requires given == []
      modifies this
      ensures var p := Reference(declared, args);
              && given == p.given
              && match p.end
                 case Ok(positionals) => r == None && residual == positionals
                 case Err(e) => r == Some(e)
    {
      var cut := 0;
      while cut < |args| && args[cut] != TERMINATOR
        invariant cut <= |args| && TERMINATOR !in args[..cut]
      {
        cut := cut + 1;
      }
      TerminatedAt(args, cut);
      var tail := if cut < |args| then args[cut + 1..] else [];
      var left := args[..cut];
      var positionals: seq<string> := [];
      while left != []
        invariant TERMINATOR !in left
        invariant Scan(declared, given, positionals, left) == Scan(declared, [], [], args[..cut])
        decreases |left|
      {
        ParseThenScan(declared, given, positionals, left);
        ghost var before := left;
        var err := Parse(left);
        if err.Some? {
          return err;
        }
        var rest := residual;
        var i := 0;
        while i < |rest| && (rest[i] == "-" || !("-" <= rest[i]))
          invariant i <= |rest|
          invariant forall k :: 0 <= k < i ==> !LooksLikeFlag(rest[k])
        {
          i := i + 1;
        }
        TakePositionals(declared, given, positionals, rest, i);
        positionals := positionals + rest[..i];
        if i == |rest| {
          left := [];
          break;
        }
        assert i > 0;
        left := rest[i..];
      }
      positionals := positionals + tail;
      r := Parse([TERMINATOR] + positionals);
      assert ([TERMINATOR] + positionals)[1..] == positionals;
    }
  }

  lemma {:induction false} TerminatedAt(args: seq<string>, cut: nat)
    requires cut <= |args| && TERMINATOR !in args[..cut] && (cut < |args| ==> args[cut] == TERMINATOR)
    ensures Terminated(args) == cut
  {
    var i := Terminated(args);
    assert forall k :: 0 <= k < cut ==> args[..cut][k] == args[k];
    assert forall k :: 0 <= k < i ==> args[..i][k] == args[k];
  }

  /** A scan begins with what one parse does, and goes on with what that leaves. */
  lemma {:induction false} ParseThenScan(d: Declared, given: seq<Assignment>, positionals: seq<string>, args: seq<string>)
    requires TERMINATOR !in args
    ensures var p := ParseFlags(d, given, args);
            match p.end
            case Err(e) => Scan(d, given, positionals, args) == p
            case Ok(rest) =>
              && TERMINATOR !in rest && |rest| <= |args| && (rest != [] ==> !LooksLikeFlag(rest[0]))
              && Scan(d, given, positionals, args) == Scan(d, p.given, positionals, rest)
    decreases |args|
  {
    if args != [] && LooksLikeFlag(args[0]) {
      assert args[0] in args;
      var reading := ReadFlag(d, args);
      if reading.Read? {
        ParseThenScan(d, given + [reading.assignment], positionals, args[reading.used..]);
      }
    }
  }

  /** A run of positionals is taken one by one. */
  lemma {:induction false} TakePositionals(
    d: Declared, given: seq<Assignment>, positionals: seq<string>, args: seq<string>, n: nat)
    requires TERMINATOR !in args && n <= |args| && forall k :: 0 <= k < n ==> !LooksLikeFlag(args[k])
    ensures TERMINATOR !in args[n..]
    ensures Scan(d, given, positionals, args) == Scan(d, given, positionals + args[..n], args[n..])
    decreases n
  {
    if n == 0 {
      assert args[0..] == args && positionals + args[..0] == positionals;
    } else {
      TakePositionals(d, given, positionals + [args[0]], args[1..], n - 1);
      assert positionals + [args[0]] + args[1..][..n - 1] == positionals + args[..n];
      assert args[1..][n - 1..] == args[n..];
    }
  }

  // ---- how a flag is written ---------------------------------------------

  /** A flag name as a command may declare it: not empty, no `=`, no dash in front. */
  predicate FlagName(name: string) {
    name != "" && name[0] != '-' && '=' !in name
  }

  /** One or two dashes, meaning the same. */
  predicate DashesOnly(dashes: string) {
    dashes == "-" || dashes == "--"
  }

  lemma {:induction false} NameEndIs(body: string, from: nat, n: nat)
    requires from <= n <= |body| && '=' !in body[from..n] && (n < |body| ==> body[n] == '=')
    ensures NameEnd(body, from) == n
    decreases |body| - from
  {
    if from < n {
      assert body[from] == body[from..n][0];
      assert body[from + 1..n] == body[from..n][1..];
      NameEndIs(body, from + 1, n);
    }
  }

  /** `-name=value` and `--name=value` give any declared flag that value, the value as it stands after the first `=`. */
  lemma {:induction false} WithValue(d: Declared, dashes: string, name: string, value: string, rest: seq<string>)
    requires DashesOnly(dashes) && FlagName(name)
    ensures var arg := dashes + name + "=" + value;
            && LooksLikeFlag(arg) && arg != TERMINATOR
            && ReadFlag(d, [arg] + rest) ==
               if name !in d.kinds then Refused(if name == "help" || name == "h" then Help else NotDefined(name))
               else if d.takes(name, value) then Read(Assignment(name, value), 1)
               else Refused(InvalidValue(name, value))
  {
    var arg := dashes + name + "=" + value;
    var body := name + "=" + value;
    assert arg == dashes + body;
    assert arg[|dashes|] == name[0];
    assert arg[Dashes(arg)..] == body;
    assert '=' !in body[1..|name|] by {
      assert body[1..|name|] == name[1..];
    }
    NameEndIs(body, 1, |name|);
    assert body[..|name|] == name && body[|name| + 1..] == value;
  }

  /** `-name` and `--name`: a switch is turned on, any other flag takes the next argument, whatever it is. */
  lemma {:induction false} WithoutValue(d: Declared, dashes: string, name: string, rest: seq<string>)
    requires DashesOnly(dashes) && FlagName(name)
    ensures var arg := dashes + name;
            && LooksLikeFlag(arg) && arg != TERMINATOR
            && ReadFlag(d, [arg] + rest) ==
               if name !in d.kinds then Refused(if name == "help" || name == "h" then Help else NotDefined(name))
               else if d.kinds[name] == Switch then
                 if d.takes(name, "true") then Read(Assignment(name, "true"), 1) else Refused(InvalidValue(name, "true"))
               else if rest == [] then Refused(NeedsArgument(name))
               else if d.takes(name, rest[0]) then Read(Assignment(name, rest[0]), 2)
               else Refused(InvalidValue(name, rest[0]))
  {
    var arg := dashes + name;
    assert arg[|dashes|] == name[0];
    assert arg[Dashes(arg)..] == name;
    assert '=' !in name[1..];
    assert name[1..|name|] == name[1..];
    NameEndIs(name, 1, |name|);
    assert name[..|name|] == name;
    if rest != [] {
      assert ([arg] + rest)[1] == rest[0];
    }
  }

  /** Anything else that looks like a flag is bad syntax: a third dash, or no name before the `=`. */
  lemma {:induction false} BadlyWritten(d: Declared, dashes: string, body: string, rest: seq<string>)
    requires DashesOnly(dashes) && body != "" && (body[0] == '=' || (dashes == "--" && body[0] == '-'))
    ensures LooksLikeFlag(dashes + body) && dashes + body != TERMINATOR
    ensures ReadFlag(d, [dashes + body] + rest) == Refused(BadSyntax(dashes + body))
  {
    var arg := dashes + body;
    assert arg[|dashes|] == body[0];
    assert arg[Dashes(arg)..] == body;
  }

  /** What is not a flag: no dash in front, or a dash alone. */
  lemma {:induction false} NotAFlag(arg: string)
    ensures LooksLikeFlag(arg) <==> |arg| > 1 && arg[0] == '-'
  {
  }
}
