/** The rows of the relational schema (api/models.py) and the pure part of the
    custom user manager: argument validation and the defaults it fills in. */
module Models {
  import opened Common

  /** The one-to-one profile row the post-save signal creates for each user. */
  datatype Profile = Profile(isAdmin: bool, isParticipant: bool)

  /** A user row. `isAdmin`/`isParticipant` are the user's own columns; the
      profile carries its own pair of flags, which can differ. `password` holds
      the hashed value only. */
  datatype User = User(
    username: string,
    email: string,
    password: string,
    isActive: bool,
    isStaff: bool,
    isSuperuser: bool,
    isAdmin: bool,
    isParticipant: bool,
    profile: Profile)

  datatype Exam = Exam(name: string, createdBy: UserId, createdAt: Time)

  /** A participant's attempt at an exam; `finishedAt == None` while in progress. */
  datatype Participation = Participation(
    user: UserId,
    exam: ExamId,
    startedAt: Time,
    finishedAt: Option<Time>,
    score: real)

  datatype Question = Question(text: string, createdAt: Time)

  /** One row of the exam <-> question many-to-many table. */
  datatype Link = Link(question: QuestionId, exam: ExamId)

  datatype Choice = Choice(question: QuestionId, text: string, isCorrect: bool)

  datatype Answer = Answer(
    participation: ParticipationId,
    question: QuestionId,
    choice: ChoiceId,
    answeredAt: Time)

  datatype Ranking = Ranking(
    exam: ExamId,
    participant: UserId,
    score: real,
    position: nat,
    createdAt: Time)

  /** A participation as `objects.create(user=..., exam=...)` stores it: the
      field defaults leave it unfinished with score 0.0. */
  function NewParticipation(user: UserId, exam: ExamId, now: Time): (p: Participation)
    ensures p.user == user && p.exam == exam && p.startedAt == now
    ensures p.finishedAt == None && p.score == 0.0
  {
    Participation(user, exam, now, None, 0.0)
  }

  // ---------------------------------------------------------------------------
  // CustomUserManager, before the row is saved

  /** The keyword arguments `**extra_fields` the manager passes on to the
      model; `None` means the keyword was not supplied. */
  datatype ExtraFields = ExtraFields(
    isActive: Option<bool>,
    isStaff: Option<bool>,
    isSuperuser: Option<bool>,
    isAdmin: Option<bool>,
    isParticipant: Option<bool>)

  /** `dict.setdefault(key, value)`: keeps a supplied value, else stores `value`. */
  function SetDefault(v: Option<bool>, d: bool): (r: Option<bool>)
    ensures r.Some?
    ensures v.Some? ==> r == v
    ensures v.None? ==> r == Some(d)
  {
    if v.Some? then v else Some(d)
  }

  /** The profile created by the post-save signal: `is_participant` True and
      `is_admin` at its default False. */
  const SIGNAL_PROFILE: Profile := Profile(false, true)

  /** `create_user` up to the save: an empty or missing email raises
      ValueError; otherwise the email is normalised, `is_active` defaults to
      True, fields not supplied take the model defaults (is_staff,
      is_superuser, is_admin False; is_participant True), and the password is
      stored through the hasher (`set_password`, which also accepts None). */
  function BuildUser(
    username: string, email: Option<string>, password: Option<string>, extra: ExtraFields,
    normalize: string -> string, hash: Option<string> -> string): (r: Result<User>)
    ensures r.Err? <==> email.None? || email.value == ""
    ensures r.Err? ==> r.failure == Exception("ValueError", "The Email field must be set")
    ensures r.Ok? ==> r.value.username == username && r.value.email == normalize(email.value)
    ensures r.Ok? ==> r.value.password == hash(password)
    ensures r.Ok? ==> r.value.isActive == (extra.isActive != Some(false))
    ensures r.Ok? ==> r.value.isStaff == (extra.isStaff == Some(true))
    ensures r.Ok? ==> r.value.isSuperuser == (extra.isSuperuser == Some(true))
    ensures r.Ok? ==> r.value.isAdmin == (extra.isAdmin == Some(true))
    ensures r.Ok? ==> r.value.isParticipant == (extra.isParticipant != Some(false))
    ensures r.Ok? ==> r.value.profile == SIGNAL_PROFILE
  {
    if email.None? || email.value == "" then
      Err(Exception("ValueError", "The Email field must be set"))
    else
      var fields := extra.(isActive := SetDefault(extra.isActive, true));
      Ok(User(
        username, normalize(email.value), hash(password),
        fields.isActive.value,
        fields.isStaff.GetOr(false),
        fields.isSuperuser.GetOr(false),
        fields.isAdmin.GetOr(false),
        fields.isParticipant.GetOr(true),
        SIGNAL_PROFILE))
  }

  /** The keyword arguments `create_superuser` hands on: is_staff,
      is_superuser and is_admin default to True. */
  function SuperuserFields(extra: ExtraFields): (r: ExtraFields)
    ensures r.isStaff == SetDefault(extra.isStaff, true)
    ensures r.isSuperuser == SetDefault(extra.isSuperuser, true)
    ensures r.isAdmin == SetDefault(extra.isAdmin, true)
    ensures r.isActive == extra.isActive && r.isParticipant == extra.isParticipant
  {
    extra.(isStaff := SetDefault(extra.isStaff, true),
           isSuperuser := SetDefault(extra.isSuperuser, true),
           isAdmin := SetDefault(extra.isAdmin, true))
  }

  /** `create_superuser` up to the save. An explicit `is_staff` or
      `is_superuser` other than True raises ValueError (is_staff is checked
      first); otherwise it is `create_user` with the defaulted fields. */
  function BuildSuperuser(
    username: string, email: Option<string>, password: Option<string>, extra: ExtraFields,
    normalize: string -> string, hash: Option<string> -> string): (r: Result<User>)
    ensures extra.isStaff == Some(false) ==>
              r == Err(Exception("ValueError", "Superuser must have is_staff=True."))
    ensures extra.isStaff != Some(false) && extra.isSuperuser == Some(false) ==>
              r == Err(Exception("ValueError", "Superuser must have is_superuser=True."))
    ensures extra.isStaff != Some(false) && extra.isSuperuser != Some(false) ==>
              r == BuildUser(username, email, password, SuperuserFields(extra), normalize, hash)
    ensures r.Ok? ==> r.value.isStaff && r.value.isSuperuser
    ensures r.Ok? ==> r.value.isAdmin == (extra.isAdmin != Some(false))
  {
    var fields := SuperuserFields(extra);
    if fields.isStaff != Some(true) then
      assert extra.isStaff.Some? && !extra.isStaff.value;
      Err(Exception("ValueError", "Superuser must have is_staff=True."))
    else if fields.isSuperuser != Some(true) then
      assert extra.isSuperuser.Some? && !extra.isSuperuser.value;
      Err(Exception("ValueError", "Superuser must have is_superuser=True."))
    else
      BuildUser(username, email, password, fields, normalize, hash)
  }
}
