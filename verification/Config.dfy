/** The authorization configuration, as the configuration file spells it. */
module Config {
  import opened Wrappers

  datatype Rewrites = Rewrites(byQueryParameter: Option<string>, byHttpHeader: Option<string>)

  datatype ResourceAttributes = ResourceAttributes(
    namespace: string, apiGroup: string, apiVersion: string, resource: string,
    subresource: string, name: string, verb: string)

  /** `groups` is part of the configuration format; no rule looks at it. */
  datatype UserRule = UserRule(name: string, groups: seq<string>)

  datatype StaticRule = StaticRule(
    user: UserRule, verb: string, namespace: string, apiGroup: string, resource: string,
    subresource: string, name: string, resourceRequest: bool, path: string)

  datatype Rule = Rule(rewrites: Rewrites, attributes: ResourceAttributes)

  datatype Mapping = Mapping(methods: seq<string>, resources: seq<Rule>)

  datatype Endpoint = Endpoint(path: string, mappings: seq<Mapping>)

  datatype AuthorizationConfig = AuthorizationConfig(
    rewrites: Option<Rewrites>, resourceAttributes: Option<ResourceAttributes>,
    staticRules: seq<StaticRule>, endpoints: seq<Endpoint>)
}
