/** External commands as the runner interface (internal/runner/runner.go)
    receives them. Which invocations succeed is not modelled here: every
    operation that runs commands takes an oracle `ok: nat -> bool`, true
    when the runner's k-th invocation (counting from 0) succeeds. */
module Exec {

  /** `Run` captures output, `RunAttached` shares the terminal,
      `RunBackground` starts a detached process. */
  datatype Mode = Captured | Attached | Background

  datatype Command = Command(mode: Mode, name: string, args: seq<string>)

  function Run(name: string, args: seq<string>): Command {
    Command(Captured, name, args)
  }

  function RunAttached(name: string, args: seq<string>): Command {
    Command(Attached, name, args)
  }

  function RunBackground(name: string, args: seq<string>): Command {
    Command(Background, name, args)
  }
}
