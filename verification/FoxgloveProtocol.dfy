/** Channels of the Foxglove bridge and how they route to a parser. */
module FoxgloveProtocol {

  type ChannelId = nat

  datatype ChannelInfo = ChannelInfo(
    id: ChannelId, topic: string, encoding: string, schemaName: string, schema: string, schemaEncoding: string)

  datatype ChannelRoute = ChannelRoute(
    supported: bool, parserEncoding: string, schemaIsBase64: bool, labelKeyedArrays: bool)

  const NO_ROUTE := ChannelRoute(false, "", false, false)

  function ClassifyChannel(ch: ChannelInfo): ChannelRoute {
    if ch.topic == "" then NO_ROUTE
    else if && ch.encoding == "cdr" && (ch.schemaEncoding == "ros2msg" || ch.schemaEncoding == "omgidl")
            && ch.schemaName != "" && ch.schema != "" then
      ChannelRoute(true, ch.schemaEncoding, false, false)
    else if ch.encoding == "protobuf" && ch.schemaEncoding == "protobuf" && ch.schemaName != "" then
      ChannelRoute(true, "protobuf", true, false)
    else if ch.encoding == "json" && (ch.schemaEncoding == "jsonschema" || ch.schemaEncoding == "") then
      ChannelRoute(true, "json", false, true)
    else NO_ROUTE
  }

  /** The five channel shapes a parser is bound for, and its encoding. */
  lemma SupportedExactly(ch: ChannelInfo)
    ensures var route := ClassifyChannel(ch);
            && (route.supported <==>
                  && ch.topic != ""
                  && (|| (ch.encoding == "cdr" && ch.schemaEncoding in {"ros2msg", "omgidl"})
                      || (ch.encoding == "protobuf" && ch.schemaEncoding == "protobuf")
                      || (ch.encoding == "json" && ch.schemaEncoding in {"jsonschema", ""}))
                  && (ch.encoding != "json" ==> ch.schemaName != "") && (ch.encoding == "cdr" ==> ch.schema != ""))
            && (route.supported ==>
                  && route.parserEncoding == (if ch.encoding == "json" then "json" else ch.schemaEncoding)
                  && (route.schemaIsBase64 <==> ch.encoding == "protobuf")
                  && (route.labelKeyedArrays <==> ch.encoding == "json"))
  {
  }
}
