/**
 * The upstream client of lib/melolo.js: the static configuration, the merge of headers and
 * query parameters every request goes through, and the uniform error every failed call turns
 * into. The HTTP exchange itself is a parameter: what the transport delivered or how it failed.
 */
module Upstream {
  import opened Base
  import opened Text
  import Js
  import Identity

  const BaseUrl: string := "https://api.tmtreader.com"

  /** `CONFIG.HEADERS`. */
  const StaticHeaders: map<string, string> := map[
    "Host" := "api.tmtreader.com",
    "Accept" := "application/json; charset=utf-8,application/x-protobuf",
    "X-Xs-From-Web" := "false",
    "Age-Range" := "8",
    "Sdk-Version" := "2",
    "Passport-Sdk-Version" := "50357",
    "X-Vc-Bdturing-Sdk-Version" := "2.2.1.i18n",
    "User-Agent" := "ScRaPe/9.9 (KaliLinux; Nusantara Os; My/Shannz)"
  ]

  /** `CONFIG.COMMON_PARAMS`, built around the identity generated when the module loads. */
  function CommonParams(id: Identity.ClientIdentity): map<string, string>
  {
    FixedParams + map["iid" := id.iid, "device_id" := id.deviceId, "openudid" := id.openUdid, "cdid" := id.cdid]
  }

  /** The static parameters that are the same for every client. */
  const FixedParams: map<string, string> := map[
    "ac" := "wifi",
    "channel" := "gp",
    "aid" := "645713",
    "app_name" := "Melolo",
    "version_code" := "49819",
    "version_name" := "4.9.8",
    "device_platform" := "android",
    "os" := "android",
    "ssmix" := "a",
    "device_type" := "ScRaPe",
    "device_brand" := "Shannz",
    "language" := "in",
    "os_api" := "28",
    "os_version" := "15",
    "manifest_version_code" := "49819",
    "resolution" := "9001600",
    "dpi" := "320",
    "update_version_code" := "49819",
    "current_region" := "ID",
    "carrier_region" := "ID",
    "app_language" := "id",
    "sys_language" := "in",
    "app_region" := "ID",
    "sys_region" := "ID",
    "mcc_mnc" := "46002",
    "carrier_region_v2" := "460",
    "user_language" := "id",
    "time_zone" := "Asia/Jakarta",
    "ui_language" := "in"
  ]

  const TicketKey: string := "_rticket"

  /**
   * `{...COMMON_PARAMS, ...params, "_rticket": ticket}`: every key of either map is sent, the
   * call's value wins over the static one, and the fresh ticket wins over both.
   */
  function MergeParams(common: map<string, string>, call: map<string, string>, ticket: string): (m: map<string, string>)
    ensures m.Keys == common.Keys + call.Keys + {TicketKey}
    ensures m[TicketKey] == ticket
    ensures forall k | k in call && k != TicketKey :: m[k] == call[k]
    ensures forall k | k in common && k !in call && k != TicketKey :: m[k] == common[k]
  {
    common + call + map[TicketKey := ticket]
  }

  /** `{...HEADERS, ...customHeaders}`: nothing is added or dropped, and a custom header wins. */
  function MergeHeaders(fixed: map<string, string>, custom: map<string, string>): (m: map<string, string>)
    ensures m.Keys == fixed.Keys + custom.Keys
    ensures forall k | k in custom :: m[k] == custom[k]
    ensures forall k | k in fixed && k !in custom :: m[k] == fixed[k]
  {
    fixed + custom
  }

  /** The configuration `request` hands to the HTTP library. */
  datatype RequestConfig = RequestConfig(
    verb: string, url: string, headers: map<string, string>, params: map<string, string>, data: Js.Value)

  /**
   * The request `request(method, endpoint, params, data, customHeaders)` issues, given the
   * process identity and the ticket `generateRticket()` draws for this call.
   */
  function BuildRequest(id: Identity.ClientIdentity, verb: string, endpoint: string, params: map<string, string>,
                        data: Js.Value, customHeaders: map<string, string>, ticket: string): RequestConfig
  {
    RequestConfig(verb, BaseUrl + endpoint, MergeHeaders(StaticHeaders, customHeaders),
                  MergeParams(CommonParams(id), params, ticket), data)
  }

  /** The identity values sit under their own keys of the static parameters. */
  lemma CommonParamsIdentity(id: Identity.ClientIdentity)
    ensures var m := CommonParams(id);
      && "device_id" in m && m["device_id"] == id.deviceId
      && "iid" in m && m["iid"] == id.iid
      && "openudid" in m && m["openudid"] == id.openUdid
      && "cdid" in m && m["cdid"] == id.cdid
  {
  }

  /**
   * What a built request carries: the fixed host, the device identity unless the call overrides
   * it, the call's own parameters, and the ticket of this call.
   */
  lemma RequestCarriesIdentity(id: Identity.ClientIdentity, verb: string, endpoint: string,
                               params: map<string, string>, data: Js.Value, custom: map<string, string>, ticket: string)
    ensures var c := BuildRequest(id, verb, endpoint, params, data, custom, ticket);
      && StartsWith(c.url, BaseUrl) && c.url[|BaseUrl|..] == endpoint
      && c.params[TicketKey] == ticket
      && ("device_id" !in params ==> c.params["device_id"] == id.deviceId)
      && ("iid" !in params ==> c.params["iid"] == id.iid)
      && ("openudid" !in params ==> c.params["openudid"] == id.openUdid)
      && ("cdid" !in params ==> c.params["cdid"] == id.cdid)
      && (forall k | k in params && k != TicketKey :: c.params[k] == params[k])
  {
    var common := CommonParams(id);
    CommonParamsIdentity(id);
    var m := MergeParams(common, params, ticket);
    assert (BaseUrl + endpoint)[..|BaseUrl|] == BaseUrl;
  }

  /**
   * How one HTTP exchange ended: the response body, or a failure with the body of the error
   * response (already in its `JSON.stringify` form) when there was a response at all.
   */
  datatype Transport = Delivered(data: Js.Value) | Rejected(responseBody: Option<string>, message: string)

  const ErrorPrefix: string := "Melolo API Error: "

  /**
   * `request`'s result: the response body, or an Error whose message is the fixed prefix
   * followed by the error response's body, or by the transport's message when no response came.
   */
  function Request(t: Transport): (r: Result<Js.Value>)
    ensures r.Ok? <==> t.Delivered?
    ensures r.Ok? ==> r.value == t.data
    ensures r.Err? ==> StartsWith(r.error, ErrorPrefix)
    ensures r.Err? ==> r.error[|ErrorPrefix|..] == if t.responseBody.Some? then t.responseBody.value else t.message
  {
    match t
    case Delivered(data) => Ok(data)
    case Rejected(body, message) =>
      var detail := if body.Some? then body.value else message;
      assert (ErrorPrefix + detail)[..|ErrorPrefix|] == ErrorPrefix;
      Err(ErrorPrefix + detail)
  }
}
