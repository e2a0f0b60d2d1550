/**
 * The login/registration form: the field errors it shows, the validity that gates
 * submission, the strength bar, the avatar initials, and the state changes made by typing,
 * switching mode and submitting (up to the point where the request is sent).
 */
module LoginForm {
  import opened Text
  import opened Seqs
  import Js

  const MinLength: nat := 2
  const MaxLength: nat := 20
  const MinPasswordRegister: nat := 6

  const EmptyUsername := "Veuillez entrer un nom d'utilisateur."
  const ShortUsername := "Le nom d'utilisateur doit contenir au moins 2 caractères."
  const LongUsername := "Le nom d'utilisateur ne peut pas dépasser 20 caractères."
  const BadUsername := "Utilisez uniquement des lettres, chiffres, tirets et underscores ( _ )."
  const EmptyPassword := "Veuillez entrer un mot de passe."
  const ShortPassword := "Le mot de passe doit contenir au moins 6 caractères."
  /** The placeholder shown when the name has no ASCII letter (U+1F464, BUST IN SILHOUETTE). */
  const Placeholder := "\U{1F464}"

  datatype Mode = Login | Register

  datatype Form = Form(
    username: string,
    password: string,
    touchedUsername: bool,
    touchedPassword: bool,
    mode: Mode,
    authError: string,
    isLoading: bool)

  /** What the form accepts as a (trimmed) user name: 2 to 20 characters of `[a-zA-Z0-9_-]`. */
  predicate UsernameAcceptable(t: string) {
    MinLength <= |t| <= MaxLength && MatchesUsernamePattern(t)
  }

  /** A non-empty password, of at least 6 characters when registering. */
  predicate PasswordAcceptable(password: string, mode: Mode) {
    |password| > 0 && (mode == Login || |password| >= MinPasswordRegister)
  }

  /**
   * `usernameError`: nothing until the field is touched; then the first failing check among
   * empty, too short, too long and the character class, or nothing when all pass.
   */
  function UsernameError(f: Form): (r: string)
    ensures !f.touchedUsername ==> r == ""
    ensures f.touchedUsername ==> (r == "" <==> UsernameAcceptable(Trim(f.username)))
    ensures f.touchedUsername && Trim(f.username) == [] ==> r == EmptyUsername
    ensures f.touchedUsername && 0 < |Trim(f.username)| < MinLength ==> r == ShortUsername
    ensures f.touchedUsername && |Trim(f.username)| > MaxLength ==> r == LongUsername
    ensures (f.touchedUsername && MinLength <= |Trim(f.username)| <= MaxLength
             && !MatchesUsernamePattern(Trim(f.username))) ==> r == BadUsername
  {
    var trimmed := Trim(f.username);
    if !f.touchedUsername then ""
    else if trimmed == [] then EmptyUsername
    else if |trimmed| < MinLength then ShortUsername
    else if |trimmed| > MaxLength then LongUsername
    else if !MatchesUsernamePattern(trimmed) then BadUsername
    else ""
  }

  /** `passwordError`: nothing until touched; then empty, then too short only in register mode. */
  function PasswordError(f: Form): (r: string)
    ensures !f.touchedPassword ==> r == ""
    ensures f.touchedPassword ==> (r == "" <==> PasswordAcceptable(f.password, f.mode))
    ensures f.touchedPassword && f.password == [] ==> r == EmptyPassword
    ensures f.touchedPassword && f.password != [] && f.mode == Register && |f.password| < MinPasswordRegister
      ==> r == ShortPassword
    ensures f.mode == Login ==> r != ShortPassword
  {
    if !f.touchedPassword then ""
    else if f.password == [] then EmptyPassword
    else if f.mode == Register && |f.password| < MinPasswordRegister then ShortPassword
    else ""
  }

  /**
   * `isValid`: it also requires both error texts to be empty, yet it does not depend on
   * whether the fields were touched; it holds exactly when both fields are acceptable.
   */
  function IsValid(f: Form): (r: bool)
    ensures r <==> UsernameAcceptable(Trim(f.username)) && PasswordAcceptable(f.password, f.mode)
  {
    var trimmed := Trim(f.username);
    && UsernameError(f) == "" && PasswordError(f) == ""
    && |trimmed| >= MinLength && |trimmed| <= MaxLength
    && MatchesUsernamePattern(trimmed) && |f.password| > 0
    && (f.mode == Login || |f.password| >= MinPasswordRegister)
  }

  /** The strength bar: `round(min(len, 20) / 20 * 100)` capped at 100, an exact multiple of 5. */
  function Progress(username: string): (r: nat)
    ensures r == 5 * Min(|username|, MaxLength)
    ensures r <= 100
    ensures |username| >= MaxLength <==> r == 100
  {
    Min(100, Min(|username|, MaxLength) * 100 / MaxLength)
  }

  /** The ASCII letters of a name, in order. */
  function Letters(t: string): (r: string)
    ensures forall i :: 0 <= i < |r| ==> IsAsciiLetter(r[i])
    ensures forall c :: c in r <==> c in t && IsAsciiLetter(c)
  {
    FilterMembers(t, IsAsciiLetter);
    Filter(t, IsAsciiLetter)
  }

  /**
   * `initials`: the first two ASCII letters of the trimmed name in upper case, or the
   * placeholder when it has none.
   */
  function Initials(username: string): (r: string)
    ensures r == Placeholder <==> forall c :: c in Trim(username) ==> !IsAsciiLetter(c)
    ensures r != Placeholder ==>
      var letters := Letters(Trim(username));
      && 1 <= |r| <= 2 && |r| == Min(|letters|, 2)
      && forall i :: 0 <= i < |r| ==> 'A' <= r[i] <= 'Z' && r[i] == UpperChar(letters[i])
  {
    var trimmed := Trim(username);
    if trimmed == [] then Placeholder
    else
      var all := Letters(trimmed);
      var letters := Upper(Js.Slice(all, 0, 2));
      if letters == [] then
        Placeholder
      else
        assert all[0] in all && IsAsciiLetter(all[0]);
        assert letters[0] != Placeholder[0];
        letters
  }

  /** The user-name field's `onChange`: keeps at most the first 20 characters and marks it touched. */
  function TypeUsername(f: Form, value: string): (r: Form)
    ensures |r.username| <= MaxLength && StartsWith(value, r.username)
    ensures |value| <= MaxLength ==> r.username == value
    ensures |value| > MaxLength ==> r.username == value[..MaxLength]
    ensures r.touchedUsername
    ensures r == f.(username := r.username, touchedUsername := true)
  {
    f.(username := Js.Slice(value, 0, MaxLength), touchedUsername := true)
  }

  /** The password field's `onChange`. */
  function TypePassword(f: Form, value: string): (r: Form)
    ensures r.password == value && r.touchedPassword
    ensures r == f.(password := value, touchedPassword := true)
  {
    f.(password := value, touchedPassword := true)
  }

  /** `toggleMode`: flips the mode, forgets which fields were touched and clears the error. */
  function ToggleMode(f: Form): (r: Form)
    ensures r.mode != f.mode
    ensures !r.touchedUsername && !r.touchedPassword && r.authError == ""
    ensures r.username == f.username && r.password == f.password && r.isLoading == f.isLoading
    ensures UsernameError(r) == "" && PasswordError(r) == ""
  {
    f.(mode := if f.mode == Login then Register else Login,
       touchedUsername := false, touchedPassword := false, authError := "")
  }

  /**
   * The synchronous part of `handleSubmit`: both fields become touched and the error is
   * cleared; the request goes out (and loading starts) only when the form is valid.
   */
  function Submit(f: Form): (r: (Form, bool))
    ensures r.1 <==> IsValid(f)
    ensures r.0.touchedUsername && r.0.touchedPassword && r.0.authError == ""
    ensures r.0.isLoading == (r.1 || f.isLoading)
    ensures r.0.username == f.username && r.0.password == f.password && r.0.mode == f.mode
    ensures !r.1 ==> UsernameError(r.0) != "" || PasswordError(r.0) != ""
  {
    var marked := f.(touchedUsername := true, touchedPassword := true, authError := "");
    if !IsValid(f) then (marked, false) else (marked.(isLoading := true), true)
  }
}
