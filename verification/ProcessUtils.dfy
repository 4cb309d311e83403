/** Reading `/proc/<pid>/cmdline`: gather the bytes, strip one trailing NUL, split at NUL. */
module ProcessUtils {
  import opened TextUtils

  const NUL: string := "\0"

  /** The content of the file, given what successive `read` calls return; the first empty
      result ends it. */
  function Content(chunks: seq<string>): string {
    if chunks == [] || chunks[0] == "" then "" else chunks[0] + Content(chunks[1..])
  }

  /** Without its last byte if that is a NUL. */
  function Strip(bytes: string): string {
    if bytes != "" && bytes[|bytes| - 1] == '\0' then bytes[..|bytes| - 1] else bytes
  }

  function Decode(bytes: string): seq<string> {
    Split(Strip(bytes), NUL)
  }

  /** What the kernel writes: every argument followed by a NUL. */
  function Encode(args: seq<string>): string {
    Terminated(args, NUL)
  }

  ghost predicate NulFree(args: seq<string>) {
    AllFree(args, NUL)
  }

  class ProcessInfo {
    var cmdline: seq<string>
    var argv0: string

    constructor ()
      ensures cmdline == [] && argv0 == ""
    {
      cmdline, argv0 := [], "";
    }

    /** The command-line part of `getProcessInfo`. A command line that is empty after the strip
        leaves what the record held before. */
    method ReadCmdline(chunks: seq<string>)
      modifies this
      ensures Strip(Content(chunks)) == "" ==> cmdline == old(cmdline) && argv0 == old(argv0)
      ensures Strip(Content(chunks)) != "" ==>
                cmdline == Decode(Content(chunks)) && cmdline != [] && argv0 == cmdline[0]
    {
      var cmdlineBytes := "";
      var i := 0;
      while i < |chunks| && chunks[i] != ""
        invariant 0 <= i <= |chunks|
        invariant cmdlineBytes + Content(chunks[i..]) == Content(chunks)
      {
        assert chunks[i..][1..] == chunks[i + 1..];
        cmdlineBytes := cmdlineBytes + chunks[i];
        i := i + 1;
      }
      assert cmdlineBytes == Content(chunks);
      if cmdlineBytes != "" && cmdlineBytes[|cmdlineBytes| - 1] == '\0' {
        cmdlineBytes := cmdlineBytes[..|cmdlineBytes| - 1];
      }
      if cmdlineBytes != "" {
        cmdline := SplitString(cmdlineBytes, NUL);
        SplitLosesNothing(cmdlineBytes, NUL);
        argv0 := cmdline[0];
      }
    }
  }

  lemma {:induction false} NulEndsOnlyTerminators(args: seq<string>)
    requires NulFree(args) && args != []
    ensures |Join(args, NUL)| > 0 && Join(args, NUL)[|Join(args, NUL)| - 1] == '\0'
            <==> |args| > 1 && args[|args| - 1] == ""
    ensures Join(args, NUL) == "" <==> args == [""]
  {
    var j := Join(args, NUL);
    if |args| == 1 {
      assert Free(args[0], NUL);
      assert |j| > 0 ==> !OccursAt(j, NUL, |j| - 1);
      assert j == "" ==> args == [""];
    } else {
      NulEndsOnlyTerminators(args[1..]);
      var rest := Join(args[1..], NUL);
      assert j == args[0] + NUL + rest;
      assert rest != "" ==> j[|j| - 1] == rest[|rest| - 1];
      if rest == "" {
        assert args[1..][0] == args[1] == "";
        assert args == [args[0]] + args[1..];
      }
    }
  }

  /** For every list of NUL-free arguments, decoding what the kernel writes gives the arguments
      back, trailing empty ones included, if and only if it is not the single empty argument. */
  lemma KernelRoundTrip(args: seq<string>)
    requires NulFree(args)
    ensures Decode(Encode(args)) == args <==> args != [""]
  {
    if args != [] {
      TerminatedIsJoin(args, NUL);
      NulEndsOnlyTerminators(args);
      assert Strip(Encode(args)) == Join(args, NUL);
      SingleCharacter('\0');
      assert JoinSplits(args, NUL);
    }
  }

  /** What successive reads of a file may return: each something of what is left, and at the end of
      the file nothing. */
  ghost predicate Reads(file: string, chunks: seq<string>)
    decreases chunks
  {
    chunks != [] &&
    if file == "" then chunks[0] == ""
    else chunks[0] != "" && chunks[0] <= file && Reads(file[|chunks[0]|..], chunks[1..])
  }

  lemma {:induction false} ReadsAll(file: string, chunks: seq<string>)
    requires Reads(file, chunks)
    ensures Content(chunks) == file
    decreases chunks
  {
    if file != "" { ReadsAll(file[|chunks[0]|..], chunks[1..]); }
  }

  /** However the reads cut up what the kernel wrote, the arguments come back if and only if they are
      not the single empty one. */
  lemma ReadingRoundTrip(args: seq<string>, chunks: seq<string>)
    requires NulFree(args) && Reads(Encode(args), chunks)
    ensures Decode(Content(chunks)) == args <==> args != [""]
  {
    ReadsAll(Encode(args), chunks);
    KernelRoundTrip(args);
  }

  /** A command line written without the last terminator decodes to its arguments if and only
      if the last argument is not empty. */
  lemma UnterminatedRoundTrip(args: seq<string>)
    requires NulFree(args)
    ensures Decode(Join(args, NUL)) == args <==> args == [] || args[|args| - 1] != ""
  {
    if args != [] {
      NulEndsOnlyTerminators(args);
      SingleCharacter('\0');
      assert JoinSplits(args, NUL);
      var last := args[|args| - 1];
      if |args| > 1 && last == "" {
        StripDropsLast(args);
      }
    }
  }

  lemma {:induction false} JoinAppendEmpty(args: seq<string>)
    requires args != []
    ensures Join(args + [""], NUL) == Join(args, NUL) + NUL
  {
    var more := args + [""];
    if |args| == 1 {
      assert more[1..] == [""];
    } else {
      assert more[1..] == args[1..] + [""];
      JoinAppendEmpty(args[1..]);
      assert args[0] + NUL + (Join(args[1..], NUL) + NUL) == args[0] + NUL + Join(args[1..], NUL) + NUL;
    }
  }

  /** The strip mistakes the separator before an empty last argument for a terminator. */
  lemma StripDropsLast(args: seq<string>)
    requires NulFree(args) && |args| > 1 && args[|args| - 1] == ""
    ensures Decode(Join(args, NUL)) != args
  {
    var front := args[..|args| - 1];
    assert args == front + [""];
    JoinAppendEmpty(front);
    assert Strip(Join(args, NUL)) == Join(front, NUL);
    NulEndsOnlyTerminators(front);
    SingleCharacter('\0');
    assert JoinSplits(front, NUL);
  }

  /** Decoding loses nothing but a missing terminator and the lone NUL: encoding the decoded
      arguments gives the bytes back if and only if there are none, or they end with a NUL and
      are more than that. */
  lemma DecodeThenEncode(bytes: string)
    ensures Encode(Decode(bytes)) == bytes
            <==> bytes == "" || (bytes[|bytes| - 1] == '\0' && bytes != NUL)
  {
    var s := Strip(bytes);
    if s != "" {
      SplitLosesNothing(s, NUL);
      NothingLeft(Encode(Decode(bytes)), Rest(s + NUL, NUL), s);
      if bytes[|bytes| - 1] == '\0' {
        assert bytes == s + NUL;
      }
    }
  }

  lemma NothingLeft(text: string, rest: string, s: string)
    requires text + rest == s + NUL && |rest| < 1
    ensures text == s + NUL
  {
    assert text + rest == text;
  }
}
