/** The records the store keeps and the events it queues. */
module Entities {
  import opened Text

  type Uuid = nat
  type Time = int

  /** A decoded JSON value. The order of an object's fields is the order they are visited in. */
  datatype Json =
    | Null
    | Bool(b: bool)
    | Number(n: int)
    | Str(s: string)
    | Array(items: seq<Json>)
    | Object(fields: seq<(string, Json)>)

  /** The columns a replace may change. An absent extended blob is the empty map. */
  datatype Columns = Columns(
    userName: string,
    externalId: Option<string>,
    givenName: Option<string>,
    familyName: Option<string>,
    email: Option<string>,
    active: bool,
    extended: map<string, Json>)

  datatype User = User(id: Uuid, cols: Columns, createdAt: Time, updatedAt: Time)

  datatype Group = Group(
    id: Uuid,
    externalId: Option<string>,
    displayName: string,
    members: seq<Uuid>,
    createdAt: Time,
    updatedAt: Time)

  datatype Image = UserImage(user: User) | GroupImage(group: Group)

  datatype Resource = UserResource | GroupResource

  datatype Action = Create | Replace | Deactivate | Delete

  /** One row of the audit log. A denied entry has no images. */
  datatype AuditEntry = AuditEntry(
    tenant: string,
    actor: string,
    resource: Resource,
    action: Action,
    success: bool,
    detail: string,
    target: Option<Uuid>,
    before: Option<Image>,
    after: Option<Image>)

  datatype EventType =
    | UserCreated | UserReplaced | UserDeactivated
    | GroupCreated | GroupReplaced | GroupDeleted

  /** The webhook body. `target` is the id as the caller spelled it. */
  datatype ChangeEvent = ChangeEvent(
    kind: EventType,
    occurredAt: Time,
    target: string,
    before: Option<Image>,
    after: Option<Image>)

  /** What the outbox row of an event carries besides its delivery state. */
  datatype Delivery = Delivery(tenant: string, kind: EventType, target: Uuid, payload: ChangeEvent)
}
