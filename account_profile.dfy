/** The account screen of components/AccountProfile.tsx: the password
    change form with its two checks before the change is attempted, the
    role label and the avatar initials. */
module AccountProfile {

  import opened Types

  const MismatchError: string := "Las contraseñas no coinciden"
  const LengthError: string := "La contraseña debe tener al menos 4 caracteres"
  const WrongPasswordError: string := "La contraseña actual es incorrecta"

  /** The checks `handlePasswordChange` makes before it calls the change:
      the confirmation first, then the length of the new password. */
  function Validate(newPassword: string, confirmPassword: string): (error: Option<string>)
    ensures error.None? <==> newPassword == confirmPassword && |newPassword| >= 4
    ensures newPassword != confirmPassword ==> error == Some(MismatchError)
    ensures newPassword == confirmPassword && |newPassword| < 4 ==> error == Some(LengthError)
  {
    if newPassword != confirmPassword then Some(MismatchError)
    else if |newPassword| < 4 then Some(LengthError)
    else None
  }

  /** Fixture check: a password that fails both checks reports the
      mismatch, a matching short one the length. */
  lemma MismatchReportedFirst()
    ensures Validate("ab", "abc") == Some(MismatchError)
    ensures Validate("ab", "ab") == Some(LengthError)
    ensures Validate("abcd", "abcd") == None
  {
  }

  /** The form's state. */
  class PasswordForm {
    var currentPassword: string
    var newPassword: string
    var confirmPassword: string
    var passwordError: string
    var passwordSuccess: bool

    constructor ()
      ensures currentPassword == "" && newPassword == "" && confirmPassword == ""
      ensures passwordError == "" && !passwordSuccess
    {
      currentPassword, newPassword, confirmPassword := "", "", "";
      passwordError, passwordSuccess := "", false;
    }

    /** `handlePasswordChange`. `changePassword` stands for the store's
        password change, which reports whether the current password was
        right. The change is attempted only when both checks pass; the
        outcome alone decides the error and success flags. */
    method HandlePasswordChange(userId: string, changePassword: (string, string, string) -> bool)
      returns (attempted: bool)
      modifies this
      ensures attempted <==> Validate(old(newPassword), old(confirmPassword)).None?
      ensures !attempted ==>
                passwordError == Validate(old(newPassword), old(confirmPassword)).value && !passwordSuccess &&
                currentPassword == old(currentPassword) && newPassword == old(newPassword) &&
                confirmPassword == old(confirmPassword)
      ensures attempted && changePassword(userId, old(currentPassword), old(newPassword)) ==>
                passwordError == "" && passwordSuccess &&
                currentPassword == "" && newPassword == "" && confirmPassword == ""
      ensures attempted && !changePassword(userId, old(currentPassword), old(newPassword)) ==>
                passwordError == WrongPasswordError && !passwordSuccess &&
                currentPassword == old(currentPassword) && newPassword == old(newPassword) &&
                confirmPassword == old(confirmPassword)
    {
      passwordError := "";
      passwordSuccess := false;
      if newPassword != confirmPassword {
        passwordError := MismatchError;
        return false;
      }
      if |newPassword| < 4 {
        passwordError := LengthError;
        return false;
      }
      attempted := true;
      var success := changePassword(userId, currentPassword, newPassword);
      if success {
        passwordSuccess := true;
        currentPassword, newPassword, confirmPassword := "", "", "";
      } else {
        passwordError := WrongPasswordError;
      }
    }
  }

  /** The "Rol del Sistema" label: one label per role. */
  function RoleLabel(role: UserRole): (text: string)
    ensures text == "Administrador" <==> role == Admin
    ensures text == "Técnico" <==> role == Tech
    ensures text == "Supervisor" <==> role == Supervisor
  {
    assert |"Administrador"| == 13 && |"Técnico"| == 7 && |"Supervisor"| == 10;
    match role
    case Admin => "Administrador"
    case Tech => "Técnico"
    case Supervisor => "Supervisor"
  }

  /** The avatar: the first character of the name and of the last name;
      the first character of an empty string renders as nothing. */
  function Initials(u: User): (r: string)
    ensures |r| == (if u.name != "" then 1 else 0) + (if u.lastName != "" then 1 else 0)
    ensures u.name != "" ==> r[0] == u.name[0]
    ensures u.lastName != "" ==> r[|r| - 1] == u.lastName[0]
  {
    (if u.name != "" then [u.name[0]] else "") + (if u.lastName != "" then [u.lastName[0]] else "")
  }

  /** Fixture check: the third mock user's avatar reads `JT`. */
  lemma MockInitials()
    ensures Initials(MockUsers[2]) == "JT"
    ensures RoleLabel(MockUsers[2].role) == "Técnico"
  {
  }
}
