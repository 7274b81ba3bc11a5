/**
 * The program's entry point (`main`): the argument-count check and the role
 * selected by the first character of the first argument.
 */
module Launcher {
  import opened Wire

  /** What `main` goes on to do. */
  datatype Role =
    | Usage                          // print the usage text
    | Server                         // run the server loop
    | Client(address: Option<string>) // run the client loop on `argv[2]`, absent when argc is 2
    | Neither                        // fall through and return

  /** The role chosen and the value `main` returns once that role returns. */
  datatype Launch = Launch(role: Role, exitCode: int)

  /**
   * `argv` includes the program name, so `|argv|` is `argc`; an empty first
   * argument has its terminating null as its first character.
   */
  function Dispatch(argv: seq<string>): (r: Launch)
  {
    if |argv| < 2 || |argv| > 3 then Launch(Usage, -1)
    else
      var mode := if |argv[1]| == 0 then '\0' else argv[1][0];
      if mode == '1' then Launch(Server, 0)
      else if mode == '2' then Launch(Client(if |argv| == 3 then Some(argv[2]) else None), 0)
      else Launch(Neither, 0)
  }

  /** The mode character `argv[1][0]`. */
  predicate ModeIs(argv: seq<string>, c: char)
  {
    |argv| >= 2 && |argv[1]| > 0 && argv[1][0] == c
  }

  /**
   * A wrong argument count gives the usage text and -1; otherwise '1' selects
   * the server, '2' the client, anything else neither, and the result is 0.
   */
  lemma DispatchSpec(argv: seq<string>)
    ensures Dispatch(argv).role == Usage <==> |argv| < 2 || |argv| > 3
    ensures Dispatch(argv).exitCode == -1 <==> Dispatch(argv).role == Usage
    ensures Dispatch(argv).exitCode != -1 ==> Dispatch(argv).exitCode == 0
    ensures Dispatch(argv).role == Server <==> 2 <= |argv| <= 3 && ModeIs(argv, '1')
    ensures Dispatch(argv).role.Client? <==> 2 <= |argv| <= 3 && ModeIs(argv, '2')
    ensures Dispatch(argv).role.Client? ==>
      (Dispatch(argv).role.address.Some? <==> |argv| == 3) &&
      (|argv| == 3 ==> Dispatch(argv).role.address.value == argv[2])
    ensures Dispatch(argv).role == Neither <==>
      2 <= |argv| <= 3 && !ModeIs(argv, '1') && !ModeIs(argv, '2')
  {
  }
}
