/** The refusals of forward routing, one per error code. */
module ForwardErrors {
  datatype ForwardError =
    | MappingInvalid
    | SlotInvalid
    | NodeUnknown
    | MappingMissing
    | SlotNotRoutable
    | BindingInvalid
    | RedirectSelf
    | TargetNodeInvalid
    | TargetNodeUnknown
    | TargetNodeLacksCapability
    | TargetUnknownCapability
    | UnknownSourceField
    | UnknownTargetField
    | RequiresSchema
}
