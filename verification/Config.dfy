/** The managed objects of a configuration payload. */
module Config {
  import opened Wrappers
  import opened Json
  import opened Conditions
  import opened Variables

  datatype TriggerType =
    | PageView | CustomEvent | Click | LinkClick | FormSubmit | RouteChange
    | DomCondition | ConsentChange | VariableCondition

  datatype Trigger = Trigger(id: string, name: string, ttype: TriggerType, conditions: Condition, priority: int,
                             enabled: bool)

  datatype Tag = Tag(
    id: string, name: string, ttype: string, triggerIds: seq<string>, variableIds: seq<string>,
    destinationIds: seq<string>, consentPurpose: Option<string>, enabled: bool)

  datatype Destination = Destination(id: string, name: string, kind: string, config: map<string, Json>, enabled: bool)

  datatype Payload = Payload(
    tags: seq<Tag>, triggers: seq<Trigger>, variables: seq<VariableDef>, destinations: seq<Destination>)
}
