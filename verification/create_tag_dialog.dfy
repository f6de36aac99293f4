/** `components/create-tag-dialog.tsx`: the dialog the tag picker opens to create a
    tag directly in the `tags` table, and the messages it shows when that fails. */
module CreateTagDialog {
  import opened Wrappers
  import Text

  const TagColors: seq<string> :=
    ["#3b82f6", "#ef4444", "#10b981", "#f59e0b", "#8b5cf6",
     "#06b6d4", "#f97316", "#84cc16", "#ec4899", "#6b7280"]

  /** The Postgres code of a unique-constraint violation. */
  const UniqueViolation := "23505"

  /** How the insert ended: success, or an error with its Postgres code. */
  datatype InsertReply = Inserted | InsertFailed(code: string)

  /** The row the dialog asks to insert. */
  datatype NewTag = NewTag(name: string, color: string, userId: string)

  /** The message a failed save shows; `None` when the tag was created. */
  function SaveError(user: Option<string>, reply: InsertReply): (e: Option<string>)
    ensures e.None? <==> user.Some? && reply.Inserted?
    ensures user.Some? && reply.InsertFailed? && reply.code == UniqueViolation ==>
              e == Some("A tag with this name already exists")
    ensures e.Some? && e != Some("A tag with this name already exists") ==> e == Some("Failed to create tag")
  {
    if user.None? then Some("Failed to create tag")
    else match reply
      case Inserted => None
      case InsertFailed(code) =>
        Some(if code == UniqueViolation then "A tag with this name already exists" else "Failed to create tag")
  }

  class Dialog {
    const initialName: string
    var name: string
    var selectedColor: string
    var saving: bool
    var error: Option<string>

    constructor (initialName: string)
      ensures this.initialName == initialName
      ensures name == "" && selectedColor == TagColors[0] && !saving && error.None?
    {
      this.initialName := initialName;
      name := "";
      selectedColor := TagColors[0];
      saving := false;
      error := None;
    }

    /** The `[open, initialName]` effect when the dialog opens. */
    method Open()
      modifies this`name, this`selectedColor, this`error
      ensures name == initialName && selectedColor == "#3b82f6" && error.None?
    {
      name := initialName;
      selectedColor := TagColors[0];
      error := None;
    }

    /** `handleSave`: a blank name does nothing; without a user nothing is sent;
        otherwise the trimmed name and the colour are inserted for the user. The
        dialog reports `created` (onTagCreated and close) exactly when it shows no
        error. */
    method HandleSave(user: Option<string>, reply: InsertReply) returns (sent: Option<NewTag>, created: bool)
      modifies this`saving, this`error
      ensures Text.IsBlank(name) ==> sent.None? && !created && error == old(error) && saving == old(saving)
      ensures !Text.IsBlank(name) ==>
                && sent == (if user.Some? then Some(NewTag(Text.Trim(name), selectedColor, user.value)) else None)
                && error == SaveError(user, reply)
                && (created <==> error.None?)
                && !saving
    {
      var n := name;
      if Text.IsBlank(n) {
        return None, false;
      }
      saving := true;
      error := None;
      sent := if user.Some? then Some(NewTag(Text.Trim(n), selectedColor, user.value)) else None;
      error := SaveError(user, reply);
      created := error.None?;
      saving := false;
    }
  }
}
