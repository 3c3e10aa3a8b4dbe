/** Roles, actions and the permission table. */
module GroupPermissions {
  import opened Wrappers

  datatype Role = Owner | Admin | Moderator | Member

  datatype GroupAction = SendMessage | AddMember | RemoveMember | PromoteDemoteMod | PromoteDemoteAdmin | DeleteGroup

  const PERMISSION_TABLE: seq<seq<bool>> := [
    [true, true, true, true, true, true],
    [true, true, true, true, false, false],
    [true, false, true, false, false, false],
    [true, false, false, false, false, false]
  ]

  function RoleIndex(r: Role): nat {
    match r case Owner => 0 case Admin => 1 case Moderator => 2 case Member => 3
  }

  function ActionIndex(a: GroupAction): nat {
    match a
    case SendMessage => 0 case AddMember => 1 case RemoveMember => 2
    case PromoteDemoteMod => 3 case PromoteDemoteAdmin => 4 case DeleteGroup => 5
  }

  /** Lower is more privileged. */
  function Privilege(r: Role): nat {
    match r case Owner => 0 case Admin => 1 case Moderator => 2 case Member => 3
  }

  predicate CheckPermission(actor: Role, action: GroupAction, target: Option<Role>) {
    && PERMISSION_TABLE[RoleIndex(actor)][ActionIndex(action)]
    && (actor == Moderator && action == RemoveMember ==> target == Some(Member))
  }
}
