/** The byte constants of the model, spelled out. */
module Spelling {
  import opened Bytes
  import opened Json
  import opened Rpc
  import opened ToolPolicy
  import opened Paginate
  import opened Session
  import Base64Url

  predicate Spells(t: Text, s: string) {
    |t| == |s| && forall i :: 0 <= i < |s| ==> t[i] as int == s[i] as int
  }

  lemma FieldNames()
    ensures Spells(JSONRPC, "jsonrpc") && Spells(VERSION_2, "2.0") && Spells(METHOD, "method")
    ensures Spells(PARAMS, "params") && Spells(ID, "id") && Spells(RESULT, "result")
  {
  }

  lemma MoreFieldNames()
    ensures Spells(ERROR, "error") && Spells(CODE, "code") && Spells(NAME, "name")
    ensures Spells(ARGUMENTS, "arguments") && Spells(CURSOR, "cursor") && Spells(IS_ERROR, "isError")
  {
  }

  lemma ProtocolVersion()
    ensures Spells(PROTOCOL_VERSION, "protocolVersion")
  {
  }

  lemma MethodNames()
    ensures Spells(METHOD_INITIALIZE, "initialize") && Spells(METHOD_PING, "ping")
    ensures Spells(METHOD_LIST, "tools/list") && Spells(METHOD_CALL, "tools/call")
  {
  }

  lemma NotificationName()
    ensures Spells(METHOD_INITIALIZED[..14], "notifications/")
  {
  }

  lemma NotificationNameEnd()
    ensures Spells(METHOD_INITIALIZED[14..], "initialized")
  {
  }

  lemma Revisions()
    ensures |SUPPORTED_PROTOCOLS| == 3
    ensures Spells(SUPPORTED_PROTOCOLS[0], "2025-06-18") && Spells(SUPPORTED_PROTOCOLS[1], "2025-03-26")
    ensures Spells(SUPPORTED_PROTOCOLS[2], "2024-11-05")
  {
  }

  lemma PolicyWords()
    ensures Spells(RO, "ro") && Spells(RW, "rw") && Spells(DENY, "deny") && Spells(DEFAULTS, "defaults")
    ensures Spells(DOTDOT, "..") && Spells([SLASH], "/") && Spells([EQUALS], "=") && Spells(CURSOR_PREFIX, "tc1.")
  {
  }

  lemma UpperCase()
    ensures Spells(Base64Url.UPPER[..13], "ABCDEFGHIJKLM")
    ensures Spells(Base64Url.UPPER[13..], "NOPQRSTUVWXYZ")
  {
  }

  lemma LowerCase()
    ensures Spells(Base64Url.LOWER[..13], "abcdefghijklm")
    ensures Spells(Base64Url.LOWER[13..], "nopqrstuvwxyz")
  {
  }

  lemma DigitsAndRest()
    ensures Spells(Base64Url.DIGITS, "0123456789") && Spells(Base64Url.B64URL[62..], "-_")
  {
  }
}
