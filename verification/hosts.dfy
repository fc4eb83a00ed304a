/**
 * The host catalogue entries the remote utilities read. Field names follow
 * the JSON keys of a host: `Device ID`, `Device ID Command`, `Architecture`,
 * `OS`, `Interface_list` and `Users`.
 */
module Hosts {
  import opened Wrappers

  /** A user entry: `name` is the login name, `key` the path of its private key. */
  datatype User = User(name: string, key: string)

  /** A network interface entry; only its `IP` is used. */
  datatype Interface = Interface(ip: string)

  /** A host entry. `interfaces` is `None` when `Interface_list` is missing, `users` when `Users` is. */
  datatype Host = Host(
    deviceId: string,
    deviceIdCommand: string,
    architecture: string,
    os: string,
    interfaces: Option<seq<Interface>>,
    users: Option<seq<User>>)
}
