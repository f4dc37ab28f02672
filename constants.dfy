// Message types and reason codes of the wire protocol (src/constants.h), and the
// argument-type tags that the public header rpc.h defines.
module Constants {
  // MessageType
  const FAILURE: int := 0
  const TERMINATE: int := 10
  const REGISTER: int := 11
  const REGISTER_SUCCESS: int := 21
  const REGISTER_FAILURE: int := 41
  const EXECUTE: int := 12
  const EXECUTE_SUCCESS: int := 22
  const EXECUTE_FAILURE: int := 42
  const LOC_REQUEST: int := 13
  const LOC_SUCCESS: int := 23
  const LOC_FAILURE: int := 43
  const LOC_CACHE_REQUEST: int := 14
  const LOC_CACHE_SUCCESS: int := 24
  const LOC_CACHE_FAILURE: int := 44

  // ReasonCode
  const SUCCESS: int := 0
  const ERROR: int := -1
  const RECEIVED_TERMINATED: int := -500
  const FUNCTION_OVERRIDDEN: int := 201
  const FUNCTION_NOT_AVAILABLE: int := -404
  const FUNCTION_EXECUTION_ERROR: int := -405
  const SOCKET_OPEN_ERROR: int := -300
  const SOCKET_UNKNOWN_HOST: int := -301
  const SOCKET_BIND_ERROR: int := -302
  const SOCKET_ACCEPT_ERROR: int := -303
  const SOCKET_SEND_ERROR: int := -307
  const SOCKET_RECEIVE_ERROR: int := -308
  const SOCKET_CONNECTION_ERROR: int := -310
  const EXECUTE_UNKNOWN_SKELETON: int := -202
  const INIT_BINDER_ADDRESS_NOT_SET: int := -501
  const INIT_BINDER_PORT_NOT_SET: int := -502
  const INIT_BINDER_SOCKET_ERROR: int := -503
  const INIT_SOCKET_ERROR: int := -504
  const SELECT_FAILURE: int := -550
  const SELECT_TIMEOUT: int := -558
  const RECEIVE_INVALID_COMMAND_NAME: int := -700
  const RECEIVE_INVALID_MESSAGE_TYPE: int := -701
  const RECEIVE_INVALID_MESSAGE: int := -702

  // Base-type tags (bits 23-16 of an argument-type word); rpc.h is not part of
  // this model, so these are the values its conventional layout assigns.
  const ARG_CHAR: int := 1
  const ARG_SHORT: int := 2
  const ARG_INT: int := 3
  const ARG_LONG: int := 4
  const ARG_DOUBLE: int := 5
  const ARG_FLOAT: int := 6

  /** The six base types an argument can have. */
  predicate IsArgBaseType(t: int)
  {
    t == ARG_CHAR || t == ARG_SHORT || t == ARG_INT || t == ARG_LONG || t == ARG_DOUBLE || t == ARG_FLOAT
  }
}
