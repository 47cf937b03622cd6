/** The API model that `generate_api` builds for a crate. */
module ApiData {
  import opened Basics

  datatype ApiItemKind =
    | Use | Macro | ProcMacro | Function | Struct | Enum | Trait | TraitAlias | InherentImpl
    | TraitImpl | Union | TypeAlias | Const | Static

  datatype SortKey = SortKey(typeArgClasses: seq<nat>, renderedSelfType: string)

  datatype ApiMember = ApiMember(name: string, docComments: seq<string>, attributes: seq<string>, declaration: string)

  datatype ApiItem = ApiItem(
    name: string, kind: ApiItemKind, sourceId: Option<string>, ownerKind: Option<ApiItemKind>,
    sortKey: Option<SortKey>, docComments: seq<string>, attributes: seq<string>, declaration: string,
    members: seq<ApiMember>)

  datatype ApiModule = ApiModule(
    path: string, docComments: seq<string>, attributes: seq<string>, items: seq<ApiItem>, modules: seq<ApiModule>)

  datatype ApiModel = ApiModel(packageName: string, packageVersion: string, root: ApiModule)
}
