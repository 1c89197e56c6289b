/** The connections to other hosts that a dispatched request asks a host to make. */
module DynamicConnections {

  datatype DynamicConnection = DynamicConnection(remote_ip: string, remote_pi: string, local_pi: string)
}
