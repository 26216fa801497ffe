/**
 * Two pieces of the editor window that drives the MessagePack code generator (mpc): the
 * command line built from the saved arguments, and the choice of dotnet and mpc executables
 * from the name of the operating-system platform.
 */
module MpcWindow {
  import opened Wrappers

  // ---------------------------------------------------------------------------------------
  // Strings

  /** A C# string reference: `None` is null. */
  type NullableString = Option<string>

  /** What StringBuilder.Append writes for a string: nothing for null. */
  function Text(s: NullableString): string
  {
    match s
    case None => ""
    case Some(t) => t
  }

  /** char.IsWhiteSpace: the Unicode space, line and paragraph separators, U+0009..U+000D and U+0085. */
  predicate IsWhiteSpace(c: char)
  {
    || ('\U{0009}' <= c <= '\U{000D}') || c == ' ' || c == '\U{0085}' || c == '\U{00A0}'
    || c == '\U{1680}' || ('\U{2000}' <= c <= '\U{200A}') || c == '\U{2028}' || c == '\U{2029}'
    || c == '\U{202F}' || c == '\U{205F}' || c == '\U{3000}'
  }

  /** string.IsNullOrWhiteSpace. */
  predicate IsNullOrWhiteSpace(s: NullableString)
  {
    match s
    case None => true
    case Some(t) => forall i :: 0 <= i < |t| ==> IsWhiteSpace(t[i])
  }

  /** `sub` occurs in `s` starting at index `i`. */
  predicate OccursAt(s: string, sub: string, i: nat)
  {
    i + |sub| <= |s| && s[i..i + |sub|] == sub
  }

  /** string.Contains(string): an ordinal search for `sub` in `s`. */
  function Contains(s: string, sub: string): bool
    decreases |s|
  {
    if |sub| > |s| then false
    else s[..|sub|] == sub || Contains(s[1..], sub)
  }

  /** The search finds `sub` exactly when it occurs somewhere in `s`. */
  lemma {:induction false} ContainsOccurs(s: string, sub: string)
    ensures Contains(s, sub) <==> exists i: nat :: OccursAt(s, sub, i)
    decreases |s|
  {
    if |sub| > |s| {
    } else if s[..|sub|] == sub {
      assert OccursAt(s, sub, 0);
    } else {
      ContainsOccurs(s[1..], sub);
      if Contains(s[1..], sub) {
        var i: nat :| OccursAt(s[1..], sub, i);
        assert s[i + 1..i + 1 + |sub|] == s[1..][i..i + |sub|];
        assert OccursAt(s, sub, i + 1);
      }
      forall i: nat | OccursAt(s, sub, i)
        ensures OccursAt(s[1..], sub, i - 1)
      {
        assert s[1..][i - 1..i - 1 + |sub|] == s[i..i + |sub|];
      }
    }
  }

  // ---------------------------------------------------------------------------------------
  // The mpc command line

  /** The saved arguments; absent strings are null. */
  datatype MpcArgument = MpcArgument(
    input: NullableString,
    output: NullableString,
    conditionalSymbol: NullableString,
    resolverName: NullableString,
    namespace: NullableString,
    useMapMode: bool,
    multipleIfDirectiveOutputSymbols: NullableString)

  /** The optional switches, in the order they are written. */
  datatype FlagKind = Conditional | Resolver | MapMode | Namespace | MultipleIf

  datatype Flag = Flag(kind: FlagKind, value: string)

  /** The text written before a switch's value (the map-mode switch has none). */
  function Switch(kind: FlagKind): string
  {
    match kind
    case Conditional => " -c "
    case Resolver => " -r "
    case MapMode => " -m"
    case Namespace => " -n "
    case MultipleIf => " -ms "
  }

  function Rank(kind: FlagKind): nat
  {
    match kind
    case Conditional => 0
    case Resolver => 1
    case MapMode => 2
    case Namespace => 3
    case MultipleIf => 4
  }

  function RenderFlags(flags: seq<Flag>): string
  {
    if flags == [] then "" else Switch(flags[0].kind) + flags[0].value + RenderFlags(flags[1..])
  }

  /** The mandatory start of every command line. */
  function Prefix(args: MpcArgument): string
  {
    "-i " + Text(args.input) + " -o " + Text(args.output)
  }

  /** A valued switch, present unless its value is null or white space. */
  function Optional(kind: FlagKind, s: NullableString): seq<Flag>
  {
    if IsNullOrWhiteSpace(s) then [] else [Flag(kind, Text(s))]
  }

  function MapModeFlag(useMapMode: bool): seq<Flag>
  {
    if useMapMode then [Flag(MapMode, "")] else []
  }

  /** The optional switches the arguments call for. */
  function Flags(args: MpcArgument): seq<Flag>
  {
    Optional(Conditional, args.conditionalSymbol)
      + Optional(Resolver, args.resolverName)
      + MapModeFlag(args.useMapMode)
      + Optional(Namespace, args.namespace)
      + Optional(MultipleIf, args.multipleIfDirectiveOutputSymbols)
  }

  /** The command line: the input and output, then the switches the arguments call for. */
  function CommandLine(args: MpcArgument): string
  {
    Prefix(args) + RenderFlags(Flags(args))
  }

  lemma {:induction false} RenderFlagsAppend(a: seq<Flag>, b: seq<Flag>)
    ensures RenderFlags(a + b) == RenderFlags(a) + RenderFlags(b)
  {
    if a == [] {
      assert a + b == b;
    } else {
      assert (a + b)[1..] == a[1..] + b;
      RenderFlagsAppend(a[1..], b);
    }
  }

  lemma StringAssoc(a: string, b: string, c: string)
    ensures a + b + c == a + (b + c)
  {
  }

  /** MpcArgument.ToString, appended piece by piece as the StringBuilder is. */
  method ToString(args: MpcArgument) returns (s: string)
    ensures s == CommandLine(args)
  {
    s := "-i ";
    s := s + Text(args.input);
    s := s + " -o ";
    s := s + Text(args.output);
    ghost var c, r, m, n := Optional(Conditional, args.conditionalSymbol), Optional(Resolver, args.resolverName),
                            MapModeFlag(args.useMapMode), Optional(Namespace, args.namespace);
    s := AppendOptional(s, Prefix(args), [], Conditional, args.conditionalSymbol);
    s := AppendOptional(s, Prefix(args), c, Resolver, args.resolverName);
    s := AppendMapMode(s, Prefix(args), c + r, args.useMapMode);
    s := AppendOptional(s, Prefix(args), c + r + m, Namespace, args.namespace);
    s := AppendOptional(s, Prefix(args), c + r + m + n, MultipleIf, args.multipleIfDirectiveOutputSymbols);
  }

  /**
   * One guarded pair of appends: the switch and its value, unless the value is null or white
   * space. `s` is the text so far, the prefix followed by the switches already written.
   */
  method AppendOptional(s: string, ghost prefix: string, ghost flags: seq<Flag>, kind: FlagKind, value: NullableString)
    returns (t: string)
    requires s == prefix + RenderFlags(flags)
    ensures t == prefix + RenderFlags(flags + Optional(kind, value))
  {
    t := s;
    if !IsNullOrWhiteSpace(value) {
      t := t + Switch(kind);
      t := t + Text(value);
      StringAssoc(s, Switch(kind), Text(value));
    }
    AppendFlags(prefix, flags, Optional(kind, value));
  }

  /** The map-mode append, made when map mode is on. */
  method AppendMapMode(s: string, ghost prefix: string, ghost flags: seq<Flag>, useMapMode: bool) returns (t: string)
    requires s == prefix + RenderFlags(flags)
    ensures t == prefix + RenderFlags(flags + MapModeFlag(useMapMode))
  {
    t := s;
    if useMapMode {
      t := t + " -m";
    }
    AppendFlags(prefix, flags, MapModeFlag(useMapMode));
  }

  /** Writing at most one more switch after the text so far. */
  lemma AppendFlags(prefix: string, flags: seq<Flag>, more: seq<Flag>)
    requires |more| <= 1
    ensures prefix + RenderFlags(flags + more)
            == prefix + RenderFlags(flags) + (if more == [] then "" else Switch(more[0].kind) + more[0].value)
  {
    RenderFlagsAppend(flags, more);
    StringAssoc(prefix, RenderFlags(flags), RenderFlags(more));
    if more != [] {
      assert more[1..] == [];
    }
  }

  /** The value of the first switch of its kind, if the kind is present. */
  function Find(flags: seq<Flag>, kind: FlagKind): Option<string>
  {
    if flags == [] then None
    else if flags[0].kind == kind then Some(flags[0].value)
    else Find(flags[1..], kind)
  }

  lemma {:induction false} FindAppend(a: seq<Flag>, b: seq<Flag>, kind: FlagKind)
    ensures Find(a + b, kind) == if Find(a, kind).Some? then Find(a, kind) else Find(b, kind)
  {
    if a == [] {
      assert a + b == b;
    } else {
      assert (a + b)[1..] == a[1..] + b;
      FindAppend(a[1..], b, kind);
    }
  }

  /** The value a switch is written with, if the arguments call for it. */
  function Expected(args: MpcArgument, kind: FlagKind): Option<string>
  {
    match kind
    case Conditional => if IsNullOrWhiteSpace(args.conditionalSymbol) then None else Some(Text(args.conditionalSymbol))
    case Resolver => if IsNullOrWhiteSpace(args.resolverName) then None else Some(Text(args.resolverName))
    case MapMode => if args.useMapMode then Some("") else None
    case Namespace => if IsNullOrWhiteSpace(args.namespace) then None else Some(Text(args.namespace))
    case MultipleIf =>
      if IsNullOrWhiteSpace(args.multipleIfDirectiveOutputSymbols) then None
      else Some(Text(args.multipleIfDirectiveOutputSymbols))
  }

  /**
   * Each switch is written exactly when its argument calls for it: -c, -r, -n and -ms when
   * their value is not null or white space, with that value; -m when map mode is on.
   */
  lemma FlagPresence(args: MpcArgument, kind: FlagKind)
    ensures Find(Flags(args), kind) == Expected(args, kind)
  {
    var c := Optional(Conditional, args.conditionalSymbol);
    var r := Optional(Resolver, args.resolverName);
    var m := MapModeFlag(args.useMapMode);
    var n := Optional(Namespace, args.namespace);
    var ms := Optional(MultipleIf, args.multipleIfDirectiveOutputSymbols);
    FindOptional(Conditional, args.conditionalSymbol, kind);
    FindOptional(Resolver, args.resolverName, kind);
    FindMapMode(args.useMapMode, kind);
    FindOptional(Namespace, args.namespace, kind);
    FindOptional(MultipleIf, args.multipleIfDirectiveOutputSymbols, kind);
    FindAppend(c + r + m + n, ms, kind);
    FindAppend(c + r + m, n, kind);
    FindAppend(c + r, m, kind);
    FindAppend(c, r, kind);
  }

  lemma FindOptional(k: FlagKind, v: NullableString, kind: FlagKind)
    ensures Find(Optional(k, v), kind) == if k == kind && !IsNullOrWhiteSpace(v) then Some(Text(v)) else None
  {
  }

  lemma FindMapMode(useMapMode: bool, kind: FlagKind)
    ensures Find(MapModeFlag(useMapMode), kind) == if kind == MapMode && useMapMode then Some("") else None
  {
  }

  /** The switches come in the fixed order -c, -r, -m, -n, -ms, each at most once. */
  lemma FlagsOrdered(args: MpcArgument)
    ensures forall i, j :: 0 <= i < j < |Flags(args)| ==> Rank(Flags(args)[i].kind) < Rank(Flags(args)[j].kind)
  {
  }

  /** Every command line starts with the input and output switches. */
  lemma CommandLineStartsWithPrefix(args: MpcArgument)
    ensures |Prefix(args)| <= |CommandLine(args)| && CommandLine(args)[..|Prefix(args)|] == Prefix(args)
  {
  }

  // ---------------------------------------------------------------------------------------
  // Platform

  datatype EOSPlatform = Window | Unix

  /** What CheckAndSetOS assigns for a platform name: the platform and the two executables, if anything. */
  function PlatformSettings(osPlatform: string): (r: Option<(EOSPlatform, string, string)>)
    ensures (r.Some? && r.value.0 == Window) <==> exists i: nat :: OccursAt(osPlatform, "Win", i)
    ensures (r.Some? && r.value.0 == Unix) <==>
              (!exists i: nat :: OccursAt(osPlatform, "Win", i)) && exists i: nat :: OccursAt(osPlatform, "Unix", i)
    ensures r.Some? ==> r.value.0 == Window ==> r.value.1 == "dotnet" && r.value.2 == "mpc"
    ensures r.Some? ==> r.value.0 == Unix ==>
              r.value.1 == "/usr/local/share/dotnet/dotnet" && r.value.2 == "/usr/local/share/dotnet/dotnet"
  {
    ContainsOccurs(osPlatform, "Win");
    ContainsOccurs(osPlatform, "Unix");
    if Contains(osPlatform, "Win") then Some((Window, "dotnet", "mpc"))
    else if Contains(osPlatform, "Unix") then Some((Unix, "/usr/local/share/dotnet/dotnet", "/usr/local/share/dotnet/dotnet"))
    else None
  }

  /** The window's static OS, Dotnet and Mpc properties. */
  class MessagePackWindow {
    var os: EOSPlatform
    var dotnet: NullableString
    var mpc: NullableString

    constructor ()
      ensures os == Window && dotnet == None && mpc == None
    {
      os := Window;
      dotnet := None;
      mpc := None;
    }

    /** CheckAndSetOS; `osPlatform` is the name of Environment.OSVersion.Platform. */
    method CheckAndSetOS(osPlatform: string)
      modifies this
      ensures match PlatformSettings(osPlatform)
              case None => unchanged(this)
              case Some(settings) => os == settings.0 && dotnet == Some(settings.1) && mpc == Some(settings.2)
    {
      if Contains(osPlatform, "Win") {
        os := Window;
        dotnet := Some("dotnet");
        mpc := Some("mpc");
      } else if Contains(osPlatform, "Unix") {
        os := Unix;
        dotnet := Some("/usr/local/share/dotnet/dotnet");
        mpc := Some("/usr/local/share/dotnet/dotnet");
      }
    }
  }

  /** Of the PlatformID names, the Win ones select Window, Unix selects Unix, and MacOSX selects nothing. */
  lemma PlatformIdNames()
    ensures PlatformSettings("Win32NT") == Some((Window, "dotnet", "mpc"))
    ensures PlatformSettings("Unix") == Some((Unix, "/usr/local/share/dotnet/dotnet", "/usr/local/share/dotnet/dotnet"))
    ensures PlatformSettings("MacOSX") == None
  {
    assert "Win32NT"[..3] == "Win";
    assert "Unix"[..4] == "Unix";
    LacksFirstChar("Unix", "Win");
    LacksFirstChar("MacOSX", "Win");
    LacksFirstChar("MacOSX", "Unix");
  }

  /** A string without the first character of `sub` does not contain `sub`. */
  lemma {:induction false} LacksFirstChar(s: string, sub: string)
    requires |sub| > 0 && forall i :: 0 <= i < |s| ==> s[i] != sub[0]
    ensures !Contains(s, sub)
    decreases |s|
  {
    if |sub| <= |s| {
      assert s[..|sub|][0] != sub[0];
      LacksFirstChar(s[1..], sub);
    }
  }
}
