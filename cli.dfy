/** The command line of `GradiaApp` (gradia/main.py): the `--screenshot`
    flag, the files to open and the windows opened for them. */
module CommandLine {
  import opened Wrappers
  import opened Strings

  /** The two `Xdp.ScreenshotFlags` the parser produces: `INTERACTIVE`, and
      `NONE`, the full-screen capture, whose value is 0. */
  datatype ScreenshotFlags = Interactive | NoFlags

  /** A window `_open_window` created: the file it opens, the screenshot
      mode it starts in and whether it was shown straight away. */
  datatype OpenedWindow = OpenedWindow(filePath: Option<string>, mode: Option<ScreenshotFlags>, shown: bool)

  const ScreenshotPrefix: string := "--screenshot"

  /** The mode text of a `--screenshot` argument: everything after the first
      '=', stripped and upper-cased, or "INTERACTIVE" without a '='. */
  function ModeOf(arg: string): string {
    if '=' in arg then Upper(Strip(AfterFirst(arg, '='))) else "INTERACTIVE"
  }

  /** "FULL" selects `NONE`; "INTERACTIVE" and every unknown mode (which is
      logged) select `INTERACTIVE`. */
  function FlagOfMode(mode: string): ScreenshotFlags {
    if mode == "FULL" then NoFlags else Interactive
  }

  /** The flag of the first argument starting with "--screenshot", if any. */
  function ScreenshotFlag(args: seq<string>): Option<ScreenshotFlags> {
    if args == [] then None
    else if StartsWith(args[0], ScreenshotPrefix) then Some(FlagOfMode(ModeOf(args[0])))
    else ScreenshotFlag(args[1..])
  }

  /** Argument `i` is the first to start with "--screenshot". */
  predicate FirstFlagAt(args: seq<string>, i: nat) {
    i < |args| && StartsWith(args[i], ScreenshotPrefix)
    && forall j :: 0 <= j < i ==> !StartsWith(args[j], ScreenshotPrefix)
  }

  /** `_parse_screenshot_flag`: the loop returns at the first argument
      starting with "--screenshot", and `None` when there is none. */
  method ParseScreenshotFlag(args: seq<string>) returns (r: Option<ScreenshotFlags>)
    ensures r == ScreenshotFlag(args)
    ensures r.None? <==> forall i :: 0 <= i < |args| ==> !StartsWith(args[i], ScreenshotPrefix)
    ensures r.Some? ==> exists i :: 0 <= i < |args| && FirstFlagAt(args, i) && r == Some(FlagOfMode(ModeOf(args[i])))
  {
    var i := 0;
    while i < |args|
      invariant 0 <= i <= |args|
      invariant forall j :: 0 <= j < i ==> !StartsWith(args[j], ScreenshotPrefix)
      invariant ScreenshotFlag(args[i..]) == ScreenshotFlag(args)
    {
      if StartsWith(args[i], ScreenshotPrefix) {
        return Some(FlagOfMode(ModeOf(args[i])));
      }
      assert args[i..][1..] == args[i + 1..];
      i := i + 1;
    }
    return None;
  }

  /** The paths the arguments that do not start with "--" resolve to, in
      order; `resolve` stands for `Gio.File.new_for_commandline_arg(arg)
      .get_path()`, `None` when that has no path or raises. An empty path
      is skipped like a missing one. */
  function FilesToOpen(args: seq<string>, resolve: string -> Option<string>): seq<string> {
    if args == [] then []
    else
      var rest := FilesToOpen(args[..|args| - 1], resolve);
      var arg := args[|args| - 1];
      if !StartsWith(arg, "--") && resolve(arg).Some? && resolve(arg).value != "" then rest + [resolve(arg).value]
      else rest
  }

  /** `not self.screenshot_flags`: no flag, or `NONE`, which is 0 and so
      false in Python. */
  predicate Shows(flags: Option<ScreenshotFlags>) {
    flags.None? || flags.value == NoFlags
  }

  /** The windows opened for some files, one each. */
  function WindowsFor(files: seq<string>, flags: Option<ScreenshotFlags>): (r: seq<OpenedWindow>)
    ensures |r| == |files|
    ensures forall i :: 0 <= i < |files| ==> r[i] == OpenedWindow(Some(files[i]), flags, Shows(flags))
  {
    if files == [] then [] else WindowsFor(files[..|files| - 1], flags) + [OpenedWindow(Some(files[|files| - 1]), flags, Shows(flags))]
  }

  /** The windows `do_command_line` opens: one per file, or one without a
      file when there is none. */
  function CommandWindows(files: seq<string>, flags: Option<ScreenshotFlags>): seq<OpenedWindow> {
    if files == [] then [OpenedWindow(None, flags, Shows(flags))] else WindowsFor(files, flags)
  }

  /** `--help` or `-h` anywhere. */
  predicate HelpAsked(args: seq<string>) {
    "--help" in args || "-h" in args
  }

  /** The application state the command line changes. */
  class App {
    var screenshotFlags: Option<ScreenshotFlags>
    var windows: seq<OpenedWindow>

    constructor()
      ensures screenshotFlags.None? && windows == []
    {
      screenshotFlags := None;
      windows := [];
    }

    /** `_open_window`: a new window in the current screenshot mode, shown
        unless that mode is set and non-zero. */
    method OpenWindow(filePath: Option<string>)
      modifies this
      ensures screenshotFlags == old(screenshotFlags)
      ensures windows == old(windows) + [OpenedWindow(filePath, screenshotFlags, Shows(screenshotFlags))]
    {
      windows := windows + [OpenedWindow(filePath, screenshotFlags, Shows(screenshotFlags))];
    }

    /** `do_activate`: one window without a file. */
    method Activate()
      modifies this
      ensures screenshotFlags == old(screenshotFlags)
      ensures windows == old(windows) + [OpenedWindow(None, screenshotFlags, Shows(screenshotFlags))]
    {
      OpenWindow(None);
    }

    /** `do_command_line` on the arguments after the program name: help
        returns 0 at once (its text is not modelled); otherwise the
        screenshot flag is parsed and a window opens for each file, or one
        without a file. The exit code is always 0. */
    method DoCommandLine(args: seq<string>, resolve: string -> Option<string>) returns (code: int)
      modifies this
      ensures code == 0
      ensures HelpAsked(args) ==> screenshotFlags == old(screenshotFlags) && windows == old(windows)
      ensures !HelpAsked(args) ==> screenshotFlags == ScreenshotFlag(args)
      ensures !HelpAsked(args) ==> windows == old(windows) + CommandWindows(FilesToOpen(args, resolve), screenshotFlags)
    {
      if "--help" in args || "-h" in args {
        return 0;
      }
      screenshotFlags := ParseScreenshotFlag(args);
      var files: seq<string> := [];
      var i := 0;
      while i < |args|
        invariant 0 <= i <= |args|
        invariant files == FilesToOpen(args[..i], resolve)
      {
        var arg := args[i];
        assert args[..i + 1][..i] == args[..i];
        if !StartsWith(arg, "--") {
          var path := resolve(arg);
          if path.Some? && path.value != "" {
            files := files + [path.value];
          }
        }
        i := i + 1;
      }
      assert args[..|args|] == args;
      if files != [] {
        var k := 0;
        ghost var before := windows;
        while k < |files|
          invariant 0 <= k <= |files|
          invariant screenshotFlags == ScreenshotFlag(args)
          invariant windows == before + WindowsFor(files[..k], screenshotFlags)
        {
          assert files[..k + 1][..k] == files[..k];
          OpenWindow(Some(files[k]));
          k := k + 1;
        }
        assert files[..|files|] == files;
      } else {
        OpenWindow(None);
      }
      return 0;
    }
  }

  // ---------------------------------------------------------------------
  // The screenshot flag

  /** The first "--screenshot…" argument decides; none gives no flag. */
  lemma {:induction false} FirstDecides(args: seq<string>, i: nat)
    requires FirstFlagAt(args, i)
    ensures ScreenshotFlag(args) == Some(FlagOfMode(ModeOf(args[i])))
  {
    if i > 0 {
      assert forall j :: 0 <= j < i - 1 ==> args[1..][j] == args[j + 1];
      FirstDecides(args[1..], i - 1);
    }
  }

  /** Without a "--screenshot…" argument there is no flag. */
  lemma {:induction false} NoFlagArgument(args: seq<string>)
    requires forall j :: 0 <= j < |args| ==> !StartsWith(args[j], ScreenshotPrefix)
    ensures ScreenshotFlag(args) == None
  {
    if args != [] {
      assert forall j :: 0 <= j < |args| - 1 ==> args[1..][j] == args[j + 1];
      NoFlagArgument(args[1..]);
    }
  }

  /** A bare "--screenshot" (any argument with the prefix and no '=') is an
      interactive capture. */
  lemma BareFlag(arg: string)
    requires '=' !in arg
    ensures FlagOfMode(ModeOf(arg)) == Interactive
  {
  }

  /** After "--screenshot=" the mode is the rest, stripped and upper-cased:
      "FULL" in any case and with any surrounding blanks selects `NONE`,
      anything else an interactive capture. */
  lemma ModeAfterEquals(rest: string)
    ensures ModeOf(ScreenshotPrefix + "=" + rest) == Upper(Strip(rest))
    ensures FlagOfMode(ModeOf(ScreenshotPrefix + "=" + rest)) == NoFlags <==> Upper(Strip(rest)) == "FULL"
  {
    var arg := ScreenshotPrefix + "=" + rest;
    var n := |ScreenshotPrefix|;
    assert arg[n] == '=';
    assert '=' !in arg[..n];
    assert arg[n + 1..] == rest;
  }

  /** Only the first '=' splits: "--screenshot=full=x" reads the mode
      "FULL=X", an unknown mode. */
  lemma SecondEqualsKept(rest: string)
    requires '=' in rest
    ensures Upper(Strip(rest)) != "FULL"
  {
    var st := Strip(rest);
    StripKeepsEquals(rest);
    var i :| 0 <= i < |st| && st[i] == '=';
    assert Upper(st)[i] == '=';
  }

  /** A '=' is not a blank, so stripping keeps it. */
  lemma StripKeepsEquals(s: string)
    requires '=' in s
    ensures '=' in Strip(s)
  {
    var i :| 0 <= i < |s| && s[i] == '=';
    StripBlank(s);
    StripCovers(s, i);
  }

  /** Stripping removes only blanks from both ends, so a character that is
      not a blank survives it. */
  lemma StripCovers(s: string, i: nat)
    requires i < |s| && !IsSpace(s[i])
    ensures s[i] in Strip(s)
  {
    LStripDrops(s);
    var l := LStrip(s);
    RStripDrops(l);
  }

  // ---------------------------------------------------------------------
  // Files and windows

  /** Appending an argument extends the files by its path when it is not
      an option and resolves to a non-empty path. */
  lemma FilesAppend(args: seq<string>, arg: string, resolve: string -> Option<string>)
    ensures FilesToOpen(args + [arg], resolve)
         == FilesToOpen(args, resolve)
            + (if !StartsWith(arg, "--") && resolve(arg).Some? && resolve(arg).value != "" then [resolve(arg).value] else [])
  {
    assert (args + [arg])[..|args|] == args;
  }

  /** Every file to open is the path of an argument that is not an option,
      and there are no more files than arguments. */
  lemma {:induction false} FilesFromArguments(args: seq<string>, resolve: string -> Option<string>)
    ensures |FilesToOpen(args, resolve)| <= |args|
    ensures forall f :: f in FilesToOpen(args, resolve) ==>
      exists i :: 0 <= i < |args| && !StartsWith(args[i], "--") && resolve(args[i]) == Some(f) && f != ""
  {
    if args != [] {
      var init := args[..|args| - 1];
      FilesFromArguments(init, resolve);
      forall f | f in FilesToOpen(args, resolve)
        ensures exists i :: 0 <= i < |args| && !StartsWith(args[i], "--") && resolve(args[i]) == Some(f) && f != ""
      {
        if f in FilesToOpen(init, resolve) {
          var i :| 0 <= i < |init| && !StartsWith(init[i], "--") && resolve(init[i]) == Some(f) && f != "";
          assert args[i] == init[i];
        } else {
          var last := |args| - 1;
          assert !StartsWith(args[last], "--") && resolve(args[last]) == Some(f) && f != "";
        }
      }
    }
  }

  /** Options never lead to a window: arguments all starting with "--"
      leave one window without a file. */
  lemma {:induction false} OnlyOptions(args: seq<string>, resolve: string -> Option<string>, flags: Option<ScreenshotFlags>)
    requires forall i :: 0 <= i < |args| ==> StartsWith(args[i], "--")
    ensures FilesToOpen(args, resolve) == []
    ensures CommandWindows(FilesToOpen(args, resolve), flags) == [OpenedWindow(None, flags, Shows(flags))]
  {
    if args != [] {
      OnlyOptions(args[..|args| - 1], resolve, flags);
    }
  }

  /** One window per file, in order, each opening its file in the parsed
      screenshot mode; a single window without a file when there are none. */
  lemma CommandWindowsShape(files: seq<string>, flags: Option<ScreenshotFlags>)
    ensures |CommandWindows(files, flags)| == if files == [] then 1 else |files|
    ensures forall i :: 0 <= i < |files| ==> CommandWindows(files, flags)[i].filePath == Some(files[i])
    ensures forall w :: w in CommandWindows(files, flags) ==> w.mode == flags && w.shown == Shows(flags)
  {
  }

  /** An interactive capture keeps its windows hidden; the full-screen mode,
      being 0, shows them like no flag at all. */
  lemma ShownUnlessInteractive(args: seq<string>)
    ensures Shows(ScreenshotFlag(args)) <==> ScreenshotFlag(args) != Some(Interactive)
  {
  }
}
