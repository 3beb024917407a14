/** The user slice of the store (`src/store/slices/userSlice.ts`): the
    signed-in user's profile and preferences, the reducer over every action
    it handles, and what its four thunks settle with given the service's
    answer. A failed service call is represented by its `message`, which
    may be missing. */
module UserSlice {
  import opened Wrappers
  import JsString
  import Json

  /** A profile as the server sends it; reducers treat it as a plain object. */
  type Profile = Json.Record

  datatype Preferences = Preferences(
    notifications: bool,
    locationSharing: bool,
    showOnMap: bool,
    privacyLevel: int)

  /** The declared range of `privacyLevel`: 1, 2 or 3. */
  predicate ValidPreferences(p: Preferences)
  {
    1 <= p.privacyLevel <= 3
  }

  /** `Partial<preferences>`: a missing field is left alone by a merge. */
  datatype PreferencesPatch = PreferencesPatch(
    notifications: Option<bool>,
    locationSharing: Option<bool>,
    showOnMap: Option<bool>,
    privacyLevel: Option<int>)

  /** `{ ...preferences, ...patch }`: a field the patch carries takes the
      patch's value, every other field keeps its value. */
  function MergePreferences(p: Preferences, patch: PreferencesPatch): (r: Preferences)
    ensures r.notifications == (if patch.notifications.Some? then patch.notifications.value else p.notifications)
    ensures r.locationSharing == (if patch.locationSharing.Some? then patch.locationSharing.value else p.locationSharing)
    ensures r.showOnMap == (if patch.showOnMap.Some? then patch.showOnMap.value else p.showOnMap)
    ensures r.privacyLevel == (if patch.privacyLevel.Some? then patch.privacyLevel.value else p.privacyLevel)
  {
    Preferences(
      patch.notifications.GetOr(p.notifications),
      patch.locationSharing.GetOr(p.locationSharing),
      patch.showOnMap.GetOr(p.showOnMap),
      patch.privacyLevel.GetOr(p.privacyLevel))
  }

  /** Merging the same patch twice is merging it once, and a patch whose
      level is in range keeps the preferences in range. */
  lemma MergePreferencesLaws(p: Preferences, patch: PreferencesPatch)
    ensures MergePreferences(MergePreferences(p, patch), patch) == MergePreferences(p, patch)
    ensures MergePreferences(p, PreferencesPatch(None, None, None, None)) == p
    ensures ValidPreferences(p) && (patch.privacyLevel.Some? ==> 1 <= patch.privacyLevel.value <= 3) ==>
      ValidPreferences(MergePreferences(p, patch))
  {
  }

  datatype UserState = UserState(
    profile: Option<Profile>,
    preferences: Preferences,
    loading: bool,
    error: Option<string>)

  const DefaultPreferences := Preferences(true, true, true, 1)
  const InitialUserState := UserState(None, DefaultPreferences, false, None)

  /** The four request thunks. */
  datatype Thunk = FetchUserProfile | UpdateUserProfile | UpdatePreferences | UploadProfileImage

  datatype UserAction =
    | UpdateLocalProfile(patch: Json.Record)
    | SetPreferences(prefs: PreferencesPatch)
    | ClearUserError
    | ResetUserState
    | Pending(thunk: Thunk)
    | ProfileFetched(profile: Profile)
    | ProfileUpdated(patch: Json.Record)
    | PreferencesUpdated(prefs: PreferencesPatch)
    | ImageUploaded(imageUrl: string)
    | Rejected(thunk: Thunk, payload: string)

  predicate IsFulfilled(a: UserAction)
  {
    a.ProfileFetched? || a.ProfileUpdated? || a.PreferencesUpdated? || a.ImageUploaded?
  }

  /** The profile a server-side update is merged into: the current one, or
      an empty object when there is none. */
  function ProfileOrEmpty(s: UserState): Profile
  {
    if s.profile.Some? then s.profile.value else map[]
  }

  /** The reducer. The pending matcher covers the profile fetch, the profile
      update and the image upload but not the preferences update; every
      rejection clears the loading flag and records its payload; every
      fulfilment clears the loading flag and leaves the error. Only the
      profile actions and reset move the profile; only the preference
      actions and reset move the preferences. The uploaded image's URL is
      not stored anywhere. */
  function Reduce(s: UserState, a: UserAction): (r: UserState)
    ensures a.Pending? && a.thunk != UpdatePreferences ==> r == s.(loading := true, error := None)
    ensures a == Pending(UpdatePreferences) ==> r == s
    ensures a.Rejected? ==> r == s.(loading := false, error := Some(a.payload))
    ensures IsFulfilled(a) ==> !r.loading && r.error == s.error
    ensures a.ProfileFetched? ==> r.profile == Some(a.profile)
    ensures a.ProfileUpdated? ==> r.profile == Some(Json.Merge(ProfileOrEmpty(s), a.patch))
    ensures a.UpdateLocalProfile? ==>
      r == s.(profile := Some(if s.profile.Some? then Json.Merge(s.profile.value, a.patch) else a.patch))
    ensures a.SetPreferences? ==> r == s.(preferences := MergePreferences(s.preferences, a.prefs))
    ensures a.PreferencesUpdated? ==> r.preferences == MergePreferences(s.preferences, a.prefs)
    ensures a.ImageUploaded? ==> r == s.(loading := false)
    ensures a == ClearUserError ==> r == s.(error := None)
    ensures a == ResetUserState ==> r == InitialUserState
    ensures r.profile != s.profile ==>
      a.UpdateLocalProfile? || a.ProfileFetched? || a.ProfileUpdated? || a == ResetUserState
    ensures r.preferences != s.preferences ==> a.SetPreferences? || a.PreferencesUpdated? || a == ResetUserState
    ensures r.loading && !s.loading ==> a.Pending? && a.thunk != UpdatePreferences
  {
    match a
    case UpdateLocalProfile(patch) =>
      if s.profile.Some? then s.(profile := Some(Json.Merge(s.profile.value, patch)))
      else s.(profile := Some(patch))
    case SetPreferences(prefs) => s.(preferences := MergePreferences(s.preferences, prefs))
    case ClearUserError => s.(error := None)
    case ResetUserState => InitialUserState
    case Pending(thunk) =>
      if thunk == UpdatePreferences then s else s.(loading := true, error := None)
    case ProfileFetched(profile) => s.(profile := Some(profile), loading := false)
    case ProfileUpdated(patch) => s.(profile := Some(Json.Merge(ProfileOrEmpty(s), patch)), loading := false)
    case PreferencesUpdated(prefs) => s.(preferences := MergePreferences(s.preferences, prefs), loading := false)
    case ImageUploaded(_) => s.(loading := false)
    case Rejected(_, payload) => s.(loading := false, error := Some(payload))
  }

  /** A local edit and the server's echo of the same patch leave the same
      profile, whether or not a profile was loaded before. */
  lemma LocalAndServerUpdatesAgree(s: UserState, patch: Json.Record)
    ensures Reduce(s, UpdateLocalProfile(patch)).profile == Reduce(s, ProfileUpdated(patch)).profile
  {
    if s.profile.None? {
      assert Json.Merge(map[], patch) == patch;
    }
  }

  /** Likewise for preferences: `setPreferences` and a fulfilled
      `updatePreferences` with the same fields agree, and neither touches
      the profile. */
  lemma LocalAndServerPreferencesAgree(s: UserState, prefs: PreferencesPatch)
    ensures Reduce(s, SetPreferences(prefs)).preferences == Reduce(s, PreferencesUpdated(prefs)).preferences
    ensures Reduce(s, SetPreferences(prefs)).profile == s.profile == Reduce(s, PreferencesUpdated(prefs)).profile
  {
  }

  const NotAuthenticatedMessage := "User not authenticated"

  /** The fallback each thunk rejects with when the error has no message. */
  function DefaultMessage(t: Thunk): string
  {
    match t
    case FetchUserProfile => "Failed to fetch profile"
    case UpdateUserProfile => "Failed to update profile"
    case UpdatePreferences => "Failed to update preferences"
    case UploadProfileImage => "Failed to upload image"
  }

  /** `rejectWithValue(error.message || default)`: the error's message when
      it has one, the thunk's fallback otherwise; never empty. */
  function RejectWith(t: Thunk, message: Option<string>): (a: UserAction)
    ensures a.Rejected? && a.thunk == t && a.payload != []
    ensures JsString.IsTruthy(message) ==> a.payload == message.value
    ensures !JsString.IsTruthy(message) ==> a.payload == DefaultMessage(t)
  {
    Rejected(t, JsString.Or(message, DefaultMessage(t)))
  }

  /** `auth.user?.id`: the signed-in user's `id` field, when there is one. */
  function UserIdOf(authUser: Option<Json.Record>): Option<Json.Value>
  {
    if authUser.Some? && "id" in authUser.value then Some(authUser.value["id"]) else None
  }

  /** One run of a thunk: the argument passed to the service, if it was
      called at all, and the action the thunk settled with. */
  datatype Run<T> = Run(request: Option<T>, settled: UserAction)

  /** `fetchUserProfile`. Without a truthy user id the service is never
      called and the thunk rejects with the not-authenticated message;
      otherwise the service is asked for that id and its answer decides. */
  function FetchUserProfileThunk(authUser: Option<Json.Record>, answer: Result<Profile, Option<string>>)
    : (run: Run<Json.Value>)
    ensures var id := UserIdOf(authUser);
      && (id.None? || !Json.Truthy(id.value) ==> run == Run(None, Rejected(FetchUserProfile, NotAuthenticatedMessage)))
      && (id.Some? && Json.Truthy(id.value) ==> run.request == id)
    ensures run.request.Some? && answer.Success? ==> run.settled == ProfileFetched(answer.value)
    ensures run.request.Some? && answer.Failure? ==> run.settled == RejectWith(FetchUserProfile, answer.error)
  {
    var id := UserIdOf(authUser);
    if id.None? || !Json.Truthy(id.value) then Run(None, Rejected(FetchUserProfile, NotAuthenticatedMessage))
    else
      match answer
      case Success(profile) => Run(Some(id.value), ProfileFetched(profile))
      case Failure(message) => Run(Some(id.value), RejectWith(FetchUserProfile, message))
  }

  /** `updateUserProfile`: the fields are sent as given; the server's
      answer becomes the patch merged into the profile. */
  function UpdateUserProfileThunk(fields: Json.Record, answer: Result<Json.Record, Option<string>>)
    : (run: Run<Json.Record>)
    ensures run.request == Some(fields)
    ensures answer.Success? ==> run.settled == ProfileUpdated(answer.value)
    ensures answer.Failure? ==> run.settled == RejectWith(UpdateUserProfile, answer.error)
  {
    match answer
    case Success(data) => Run(Some(fields), ProfileUpdated(data))
    case Failure(message) => Run(Some(fields), RejectWith(UpdateUserProfile, message))
  }

  /** `updatePreferences`: the server's answer is what gets merged, not
      the fields that were sent. */
  function UpdatePreferencesThunk(prefs: PreferencesPatch, answer: Result<PreferencesPatch, Option<string>>)
    : (run: Run<PreferencesPatch>)
    ensures run.request == Some(prefs)
    ensures answer.Success? ==> run.settled == PreferencesUpdated(answer.value)
    ensures answer.Failure? ==> run.settled == RejectWith(UpdatePreferences, answer.error)
  {
    match answer
    case Success(data) => Run(Some(prefs), PreferencesUpdated(data))
    case Failure(message) => Run(Some(prefs), RejectWith(UpdatePreferences, message))
  }

  /** `uploadProfileImage`: settles with the URL the server reports. */
  function UploadProfileImageThunk(imageUri: string, answer: Result<string, Option<string>>)
    : (run: Run<string>)
    ensures run.request == Some(imageUri)
    ensures answer.Success? ==> run.settled == ImageUploaded(answer.value)
    ensures answer.Failure? ==> run.settled == RejectWith(UploadProfileImage, answer.error)
  {
    match answer
    case Success(url) => Run(Some(imageUri), ImageUploaded(url))
    case Failure(message) => Run(Some(imageUri), RejectWith(UploadProfileImage, message))
  }

  /** Fetching the profile while signed out never reaches the service, and
      the whole request leaves the profile alone and the not-authenticated
      message in the error. */
  lemma SignedOutFetchFails(s: UserState, authUser: Option<Json.Record>, answer: Result<Profile, Option<string>>)
    requires UserIdOf(authUser).None? || !Json.Truthy(UserIdOf(authUser).value)
    ensures var run := FetchUserProfileThunk(authUser, answer);
      && run.request.None?
      && var r := Reduce(Reduce(s, Pending(FetchUserProfile)), run.settled);
      && r == s.(loading := false, error := Some(NotAuthenticatedMessage))
  {
  }

  /** A whole image upload: the profile, including any image field it
      holds, and the preferences are untouched; only the flags change. */
  lemma UploadLeavesProfile(s: UserState, imageUri: string, answer: Result<string, Option<string>>)
    ensures var r := Reduce(Reduce(s, Pending(UploadProfileImage)), UploadProfileImageThunk(imageUri, answer).settled);
      && r.profile == s.profile && r.preferences == s.preferences && !r.loading
      && (answer.Success? <==> r.error.None?)
  {
  }

  /** A whole preferences request never shows the loading flag and, when
      it succeeds, keeps whatever error was there before. */
  lemma PreferencesRequestSkipsLoading(s: UserState, prefs: PreferencesPatch,
                                       answer: Result<PreferencesPatch, Option<string>>)
    ensures var mid := Reduce(s, Pending(UpdatePreferences));
      && mid.loading == s.loading
      && var r := Reduce(mid, UpdatePreferencesThunk(prefs, answer).settled);
      && !r.loading
      && (answer.Success? ==> r.error == s.error && r.preferences == MergePreferences(s.preferences, answer.value))
      && (answer.Failure? ==> r.error.Some? && r.preferences == s.preferences)
  {
  }

  /** Reset returns the initial state from anywhere, and the initial
      preferences are in range. */
  lemma ResetIsInitial(s: UserState)
    ensures Reduce(s, ResetUserState) == InitialUserState
    ensures ValidPreferences(Reduce(s, ResetUserState).preferences)
  {
  }
}
