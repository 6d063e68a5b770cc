/** UserEditForm: the form that edits a user account, with its validators, its save, cancel and
  * delete buttons. The User entity and UserDao are not part of this model: a user carries only the
  * fields the form reads and writes, and what the DAO answers (the stored user, a new salt, the
  * password hash) comes in as parameters. */
module UserEditForm {
  import opened Wrappers
  import opened FormRules
  import XmlErrors

  const RoleIsRequiredKey: string := "UserEditForm.role-is-required"
  const RealNameIsNonUniqueKey: string := "UserEditForm.realName-is-non-unique"
  const UsernameIsNonUniqueKey: string := "UserEditForm.username-is-non-unique"

  type byte = bv8

  /** `UserRoles.Role`. */
  datatype Role = Admin | OtherRole(name: string)

  /** The fields of a user the form works on. */
  class User {
    var id: Option<int>
    var password: string
    var salt: seq<byte>

    constructor (id: Option<int>, password: string, salt: seq<byte>)
      ensures this.id == id && this.password == password && this.salt == salt
    {
      this.id := id;
      this.password := password;
      this.salt := salt;
    }
  }

  /** The DAO call a save ends with. */
  datatype SaveCall = PersistUser | MergeUser

  /** What the form shows after a save: a new form over the stored user for an administrator, the
    * home page for anyone else. */
  datatype AfterSave = RefreshedForm | HomePage

  /** What a click on cancel or delete leads to. */
  datatype Response = EditForm(selection: Selection) | Home | SignIn

  /** The password counts as changed unless the user is stored, the stored user is found and the
    * entered password is the stored one. */
  function PasswordChanged(id: Option<int>, stored: Option<string>, password: string): (r: bool)
    ensures !r <==> id.Some? && stored == Some(password)
  {
    !(id.Some? && stored.Some? && password == stored.value)
  }

  /** `RequiredRoleValidator.validate`: the one error it reports, exactly when no role is chosen. */
  function RoleErrors(role: Option<Role>): (r: seq<XmlErrors.ValidationMessage>)
    ensures |r| <= 1
    ensures r == [] <==> role.Some?
    ensures r != [] ==> r[0].key == RoleIsRequiredKey
  {
    if role.None? then [XmlErrors.ValidationMessage(RoleIsRequiredKey, [])] else []
  }

  /** The uniqueness rule of both name validators: a user found with the entered value clashes when
    * the edited user is transient, or when the found user is not equal to it. */
  predicate Clashes(editedTransient: bool, found: bool, foundEqualsEdited: bool) {
    if editedTransient then found else found && !foundEqualsEdited
  }

  /** `UniqueRealNameValidator.validate`. */
  function RealNameErrors(editedTransient: bool, found: bool, foundEqualsEdited: bool): (r: seq<XmlErrors.ValidationMessage>)
    ensures |r| <= 1
    ensures r == [] <==> !found || (!editedTransient && foundEqualsEdited)
    ensures r != [] ==> r[0].key == RealNameIsNonUniqueKey
  {
    if Clashes(editedTransient, found, foundEqualsEdited) then [XmlErrors.ValidationMessage(RealNameIsNonUniqueKey, [])] else []
  }

  /** `UniqueUsernameValidator.validate`. */
  function UsernameErrors(editedTransient: bool, found: bool, foundEqualsEdited: bool): (r: seq<XmlErrors.ValidationMessage>)
    ensures |r| <= 1
    ensures r == [] <==> !found || (!editedTransient && foundEqualsEdited)
    ensures r != [] ==> r[0].key == UsernameIsNonUniqueKey
  {
    if Clashes(editedTransient, found, foundEqualsEdited) then [XmlErrors.ValidationMessage(UsernameIsNonUniqueKey, [])] else []
  }

  /** The two name validators report on the same inputs, and their reports differ only in the
    * message key. */
  lemma NameValidatorsAgree(editedTransient: bool, found: bool, foundEqualsEdited: bool)
    ensures var realName := RealNameErrors(editedTransient, found, foundEqualsEdited);
            var username := UsernameErrors(editedTransient, found, foundEqualsEdited);
            |realName| == |username|
            && forall i :: 0 <= i < |realName| ==>
                 realName[i].parameters == [] && username[i].parameters == []
                 && realName[i].key == RealNameIsNonUniqueKey && username[i].key == UsernameIsNonUniqueKey
                 && realName[i].key != username[i].key
  {
  }

  /** `SaveButton.onSubmit` up to the DAO call: with a changed password a new salt is drawn and the
    * password replaced by its hash; a hashing failure is swallowed and leaves both as they were.
    * `stored` is the password of the stored user with the edited user's id, None when there is no
    * such user; `hash` stands for the DAO's hashing, None when it throws. */
  method Save(user: User, stored: Option<string>, newSalt: seq<byte>, hash: (string, seq<byte>) -> Option<string>,
              sessionRole: Role)
    returns (passwordChanged: bool, call: SaveCall, next: AfterSave)
    modifies user`password, user`salt
    ensures passwordChanged == PasswordChanged(user.id, stored, old(user.password))
    ensures passwordChanged && hash(old(user.password), newSalt).Some? ==>
              user.password == hash(old(user.password), newSalt).value && user.salt == newSalt
    ensures !(passwordChanged && hash(old(user.password), newSalt).Some?) ==>
              user.password == old(user.password) && user.salt == old(user.salt)
    ensures call == if user.id.None? then PersistUser else MergeUser
    ensures next == if sessionRole == Admin then RefreshedForm else HomePage
  {
    passwordChanged := true;
    if user.id.Some? {
      if stored.Some? {
        passwordChanged := user.password != stored.value;
      }
    }
    if passwordChanged {
      var hashed := hash(user.password, newSalt);
      if hashed.Some? {
        user.password := hashed.value;
        user.salt := newSalt;
      }
    }
    call := if user.id.None? then PersistUser else MergeUser;
    next := if sessionRole == Admin then RefreshedForm else HomePage;
  }

  /** The loop of `DeleteButton.onClick`: it walks the view keeping the previous item; an item equal
    * to the deleted user selects the previous item and the walk goes on, or, for the first item,
    * selects the next one and stops. */
  method SelectAfterDelete<T>(view: seq<T>, isDeleted: T -> bool) returns (selected: Selection)
    ensures selected == PredecessorOrSuccessor(seq(|view|, i requires 0 <= i < |view| => isDeleted(view[i])))
  {
    ghost var equal := seq(|view|, i requires 0 <= i < |view| => isDeleted(view[i]));
    selected := NewEntity;
    var hasLast := false;
    var i := 0;
    while i < |view|
      invariant 0 <= i <= |view|
      invariant hasLast <==> i > 0
      invariant i > 0 ==> !(|equal| > 1 && equal[0])
      invariant selected == if i == 0 then NewEntity else PredecessorOrSuccessor(equal[..i])
      decreases |view| - i
    {
      if isDeleted(view[i]) {
        if hasLast {
          selected := ViewItem(i - 1);
        } else if i + 1 < |view| {
          selected := ViewItem(i + 1);
          break;
        }
      }
      assert equal[..i + 1][..i] == equal[..i];
      hasLast := true;
      i := i + 1;
    }
    assert equal[..|view|] == equal;
  }

  /** `DeleteButton.onClick` after the loop: deleting the session's own user invalidates the
    * session and goes to the sign-in page; any other delete shows the selected item. */
  function AfterDelete(deletedIsSessionUser: bool, selected: Selection): (r: Response)
    ensures r == SignIn <==> deletedIsSessionUser
    ensures !deletedIsSessionUser ==> r == EditForm(selected)
  {
    if deletedIsSessionUser then SignIn else EditForm(selected)
  }

  /** `CancelButton.onClick`: an administrator gets a form over the first user of the view, or a
    * new user when the view is empty; anyone else goes to the home page. */
  function CancelResponse(sessionRole: Role, viewSize: nat): (r: Response)
    ensures sessionRole != Admin <==> r == Home
    ensures sessionRole == Admin ==> r == EditForm(if viewSize > 0 then ViewItem(0) else NewEntity)
  {
    if sessionRole != Admin then Home
    else if viewSize > 0 then EditForm(ViewItem(0))
    else EditForm(NewEntity)
  }
}
