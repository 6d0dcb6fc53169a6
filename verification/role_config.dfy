/**
 * Startup validation of the two role flags: `-listen` (listener role) and
 * `-server` (dialer role, the host to connect to). Exactly one must be set.
 */
module RoleConfig {
  import opened Wrappers
  import opened Bytes

  /** Defaults of the role flags: `-listen false`, `-server ""`. */
  const DefaultListen: bool := false
  const DefaultServer: string := ""

  /** The role this process takes once its flags are accepted. */
  datatype Role = Listener | Dialer(server: string)

  /** Why a flag combination is refused. */
  datatype ConfigError =
    | ListenAndServer   // both roles requested
    | NoRole            // neither role requested

  /** The role flags pass when exactly one of them is set. */
  predicate ExactlyOneRole(listen: bool, server: string)
  {
    listen != (server != "")
  }

  /**
   * The two checks of `main`, in their order: both flags set is refused first,
   * then neither set; otherwise `listen` picks the listener role.
   */
  function ValidateRole(listen: bool, server: string): (r: Result<Role, ConfigError>)
    ensures r == Failure(ListenAndServer) <==> listen && server != ""
    ensures r == Failure(NoRole) <==> !listen && server == ""
    ensures r.Success? <==> ExactlyOneRole(listen, server)
    ensures r.Success? ==> (r.value == Listener <==> listen)
    ensures r.Success? && !listen ==> r.value == Dialer(server)
  {
    if listen && server != "" then Failure(ListenAndServer)
    else if !listen && server == "" then Failure(NoRole)
    else if listen then Success(Listener)
    else Success(Dialer(server))
  }

  /** What `main` does next after the flag checks. */
  datatype Step =
    | Reject(reason: ConfigError)             // report and exit; nothing is opened
    | OpenDevice(dev: seq<byte>, role: Role)  // go on to `openTunDevice(dev)`

  function Startup(listen: bool, server: string, dev: seq<byte>): Step
  {
    match ValidateRole(listen, server)
    case Failure(e) => Reject(e)
    case Success(role) => OpenDevice(dev, role)
  }

  /**
   * The device is opened exactly when one role flag is set, it is opened under
   * the configured name, and a refused configuration opens nothing.
   */
  lemma StartupOpensDeviceIffOneRole(listen: bool, server: string, dev: seq<byte>)
    ensures Startup(listen, server, dev).OpenDevice? <==> ExactlyOneRole(listen, server)
    ensures Startup(listen, server, dev).OpenDevice? ==> Startup(listen, server, dev).dev == dev
    ensures listen && server != "" ==> Startup(listen, server, dev) == Reject(ListenAndServer)
    ensures !listen && server == "" ==> Startup(listen, server, dev) == Reject(NoRole)
  {
  }

  /** Running with no role flag at all is refused. */
  lemma DefaultsAreRejected(dev: seq<byte>)
    ensures Startup(DefaultListen, DefaultServer, dev) == Reject(NoRole)
  {
  }
}
