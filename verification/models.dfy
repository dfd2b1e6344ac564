/** The records the pipeline passes between its stages, and the errors that stop it. */
module Models {
  import opened Wrappers
  import opened Text

  /** The open ports discovery found on one address. */
  datatype IpPorts = IpPorts(ip: string, ports: seq<U16>)

  /** One `<port>` element of an Nmap report: number, state and optional service name. */
  datatype PortDetail = PortDetail(port: U16, state: string, service: Option<string>)

  /** The Nmap findings for one target, resolved to one address. */
  datatype HostReport = HostReport(target: string, ip: string, ports: seq<PortDetail>)

  /** A rule of the dispatcher: ports and/or a service pattern that select it, and command templates. */
  datatype Rule = Rule(name: string, ports: seq<U16>, serviceRegex: Option<string>, cmds: seq<string>)

  /** Why a stage failed. */
  datatype Error =
    | InvalidPort(text: string)          // a piece of a port list that is not a `u16`
    | XmlError(message: string)          // the XML reader gave up
    | ReadFailed(path: string)           // a file could not be read
    | SpawnFailed(program: string)       // an external program could not be started
    | NmapFailed(ip: string, args: seq<string>, stderr: string)
    | ShellSplitFailed(command: string)  // a rendered command line is not valid shell syntax
    | WriteFailed(path: string)
    | ShodanFailed(status: nat)          // a Shodan search page answered with a non-success status

  type Outcome<T> = Result<T, Error>

  /**
   * `Path::join` of a relative component onto a non-empty directory that
   * does not end in '/': the two parts with one separator. Every directory
   * joined here is of that kind (the output directory and the per-host
   * directories under it); `Path::join` onto an empty directory, or onto one
   * ending in '/', adds no separator, which this function does not model.
   */
  function JoinPath(dir: string, name: string): (p: string)
    ensures |p| == |dir| + 1 + |name|
    ensures p[..|dir|] == dir && p[|dir|] == '/' && p[|dir| + 1..] == name
  {
    dir + "/" + name
  }

  /** The record's service name is `name`. */
  predicate ServiceIs(p: PortDetail, name: string) {
    p.service == Some(name)
  }
}
