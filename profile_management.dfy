/** The signed-in user's profile page: the profile form with its save and
    cancel, and the password change with its checks. */
module ProfileManagement {
  import opened Types

  // ---------------------------------------------------------------------------
  // Password change

  datatype PasswordData = PasswordData(currentPassword: string, newPassword: string, confirmPassword: string)

  const EmptyPasswords: PasswordData := PasswordData("", "", "")

  const MismatchError: string := "New passwords do not match"
  const TooShortError: string := "Password must be at least 6 characters long"

  /** handleChangePassword's checks, in their order: the two new fields
      must agree, then the new password must have at least 6 characters. */
  function PasswordError(p: PasswordData): (r: Option<string>)
    ensures p.newPassword != p.confirmPassword ==> r == Some(MismatchError)
    ensures p.newPassword == p.confirmPassword && |p.newPassword| < 6 ==> r == Some(TooShortError)
    ensures r == None <==> p.newPassword == p.confirmPassword && |p.newPassword| >= 6
  {
    if p.newPassword != p.confirmPassword then Some(MismatchError)
    else if |p.newPassword| < 6 then Some(TooShortError)
    else None
  }

  /** A short password that also differs from its confirmation is reported
      as a mismatch: the agreement check runs first. */
  lemma MismatchReportedFirst(p: PasswordData)
    requires p.newPassword != p.confirmPassword && |p.newPassword| < 6
    ensures PasswordError(p) == Some(MismatchError)
  {
  }

  /** The change button's disabled rule. */
  predicate ChangeDisabled(saving: bool, p: PasswordData)
  {
    saving || p.newPassword == "" || p.confirmPassword == ""
  }

  /** An enabled button does not mean an acceptable password: a short one
      still fails the length check. */
  lemma EnabledButShort()
    ensures !ChangeDisabled(false, PasswordData("", "abc", "abc"))
    ensures PasswordError(PasswordData("", "abc", "abc")) == Some(TooShortError)
  {
  }

  // ---------------------------------------------------------------------------
  // Profile form

  datatype ProfileForm = ProfileForm(fullName: string, email: string, contactNumber: string)

  /** The form filled from a profile. */
  function FormOf(u: AppUser): (f: ProfileForm)
    ensures f.fullName == u.fullName && f.email == u.email && f.contactNumber == u.contactNumber
  {
    ProfileForm(u.fullName, u.email, u.contactNumber)
  }

  /** The update sent by handleSaveProfile. */
  datatype UserUpdate = UserUpdate(fullName: string, email: string, contactNumber: string,
                                   role: Role, isActive: bool)

  /** The edited fields from the form; role and active flag from the stored
      profile, so saving never changes them. */
  function UpdatePayload(f: ProfileForm, u: AppUser): (r: UserUpdate)
    ensures r.fullName == f.fullName && r.email == f.email && r.contactNumber == f.contactNumber
    ensures r.role == u.role && r.isActive == u.isActive
  {
    UserUpdate(f.fullName, f.email, f.contactNumber, u.role, u.isActive)
  }

  /** Saving the form unchanged sends the stored profile back as it is. */
  lemma SaveUnchangedForm(u: AppUser)
    ensures var r := UpdatePayload(FormOf(u), u);
      r.fullName == u.fullName && r.email == u.email && r.contactNumber == u.contactNumber &&
      r.role == u.role && r.isActive == u.isActive
  {
  }

  // ---------------------------------------------------------------------------
  // The page

  class ProfilePage {
    var userProfile: Option<AppUser>
    var formData: ProfileForm
    var passwordData: PasswordData
    var editing: bool
    var changingPassword: bool
    var error: Option<string>
    var success: Option<string>

    constructor()
      ensures userProfile == None && formData == ProfileForm("", "", "") && passwordData == EmptyPasswords
      ensures !editing && !changingPassword && error == None && success == None
    {
      userProfile := None;
      formData := ProfileForm("", "", "");
      passwordData := EmptyPasswords;
      editing := false;
      changingPassword := false;
      error := None;
      success := None;
    }

    /** loadUserProfile: a found profile fills the form; no profile changes
        nothing; a failure shows its error. */
    method LoadUserProfile(fetch: Result<Option<AppUser>>)
      modifies this
      ensures fetch.Ok? && fetch.value.Some? ==>
        userProfile == fetch.value && formData == FormOf(fetch.value.value) && error == None
      ensures fetch.Ok? && fetch.value.None? ==>
        userProfile == old(userProfile) && formData == old(formData) && error == None
      ensures fetch.Err? ==> userProfile == old(userProfile) && formData == old(formData) && error == Some(fetch.message)
      ensures passwordData == old(passwordData) && editing == old(editing)
      ensures changingPassword == old(changingPassword) && success == old(success)
    {
      error := None;
      if fetch.Err? {
        error := Some(fetch.message);
        return;
      }
      if fetch.value.Some? {
        userProfile := fetch.value;
        formData := FormOf(fetch.value.value);
      }
    }

    /** handleSaveProfile. Returns the profile update sent and the new
        sign-in email sent, if any: the email goes to the sign-in service
        only when it differs from the stored one; a failure of that call is
        only logged. After a save the profile reloads. */
    method HandleSaveProfile(updated: Result<()>, reload: Result<Option<AppUser>>)
      returns (update: Option<UserUpdate>, authEmail: Option<string>)
      modifies this
      ensures old(userProfile).None? ==>
        update == None && authEmail == None && error == old(error) && success == old(success) &&
        editing == old(editing) && formData == old(formData) && userProfile == old(userProfile)
      ensures old(userProfile).Some? ==> update == Some(UpdatePayload(old(formData), old(userProfile).value))
      ensures old(userProfile).Some? && updated.Err? ==>
        authEmail == None && error == Some(updated.message) && success == old(success) &&
        editing == old(editing) && formData == old(formData) && userProfile == old(userProfile)
      ensures old(userProfile).Some? && updated.Ok? ==>
        (authEmail.Some? <==> old(formData).email != old(userProfile).value.email) &&
        (authEmail.Some? ==> authEmail.value == old(formData).email) &&
        success == Some("Profile updated successfully!") && !editing
      ensures old(userProfile).Some? && updated.Ok? && reload.Ok? && reload.value.Some? ==>
        userProfile == reload.value && formData == FormOf(reload.value.value) && error == None
      ensures old(userProfile).Some? && updated.Ok? && reload.Ok? && reload.value.None? ==>
        userProfile == old(userProfile) && formData == old(formData) && error == None
      ensures old(userProfile).Some? && updated.Ok? && reload.Err? ==>
        userProfile == old(userProfile) && formData == old(formData) && error == Some(reload.message)
      ensures passwordData == old(passwordData) && changingPassword == old(changingPassword)
    {
      if userProfile.None? {
        return None, None;
      }
      error := None;
      update := Some(UpdatePayload(formData, userProfile.value));
      if updated.Err? {
        error := Some(updated.message);
        return update, None;
      }
      authEmail := if formData.email != userProfile.value.email then Some(formData.email) else None;
      success := Some("Profile updated successfully!");
      editing := false;
      LoadUserProfile(reload);
    }

    /** handleChangePassword. Returns the new password sent to the sign-in
        service, if the checks let it through. */
    method HandleChangePassword(authError: Option<string>) returns (sent: Option<string>)
      modifies this
      ensures PasswordError(old(passwordData)).Some? ==>
        sent == None && error == PasswordError(old(passwordData)) &&
        passwordData == old(passwordData) && changingPassword == old(changingPassword) && success == old(success)
      ensures PasswordError(old(passwordData)).None? ==> sent == Some(old(passwordData).newPassword)
      ensures PasswordError(old(passwordData)).None? && authError.Some? ==>
        error == authError && passwordData == old(passwordData) &&
        changingPassword == old(changingPassword) && success == old(success)
      ensures PasswordError(old(passwordData)).None? && authError.None? ==>
        error == None && passwordData == EmptyPasswords && !changingPassword &&
        success == Some("Password changed successfully!")
      ensures userProfile == old(userProfile) && formData == old(formData) && editing == old(editing)
    {
      var check := PasswordError(passwordData);
      if check.Some? {
        error := check;
        return None;
      }
      error := None;
      sent := Some(passwordData.newPassword);
      if authError.Some? {
        error := authError;
        return;
      }
      success := Some("Password changed successfully!");
      changingPassword := false;
      passwordData := EmptyPasswords;
    }

    /** handleCancel: the form goes back to the stored profile. */
    method HandleCancel()
      modifies this
      ensures old(userProfile).Some? ==> formData == FormOf(old(userProfile).value)
      ensures old(userProfile).None? ==> formData == old(formData)
      ensures !editing && error == None
      ensures userProfile == old(userProfile) && passwordData == old(passwordData)
      ensures changingPassword == old(changingPassword) && success == old(success)
    {
      if userProfile.Some? {
        formData := FormOf(userProfile.value);
      }
      editing := false;
      error := None;
    }

    /** handleCancelPassword: the three fields are emptied. */
    method HandleCancelPassword()
      modifies this
      ensures passwordData == EmptyPasswords && !changingPassword && error == None
      ensures userProfile == old(userProfile) && formData == old(formData)
      ensures editing == old(editing) && success == old(success)
    {
      passwordData := EmptyPasswords;
      changingPassword := false;
      error := None;
    }
  }
}
