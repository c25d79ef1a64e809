/**
 * The home page: `load` lists the signed-in user's households, and the
 * `createHousehold` action validates a name and inserts the household and
 * its creator's admin membership inside one try/catch.
 */
module HouseholdPage {
  import opened Wrappers
  import opened Text
  import opened Schema

  const MaxNameLength := 100
  const NameRequired := "Household name is required"
  const NameTooLong := "Household name must be less than 100 characters"
  const CreateFailed := "Failed to create household. Please try again."

  /** `formData.get('name')`: no field, a string, or an uploaded file. */
  datatype FormValue = Missing | StringValue(s: string) | FileValue

  /** What an action hands to SvelteKit: a thrown redirect, or a `fail(...)` result. */
  datatype ActionResult = Redirect(status: int, location: string) | Fail(status: int, error: string)

  /** An error thrown by the database for a reason outside the model (connection, constraint). */
  datatype InsertFault = NoFault | HouseholdInsertFails | MemberInsertFails

  /** One entry of the list `load` returns. */
  datatype HouseholdSummary = HouseholdSummary(
    id: string,
    name: string,
    imageUrl: Option<string>,
    bannerUrl: Option<string>,
    primaryColor: Option<string>,
    secondaryColor: Option<string>,
    createdAt: int,
    role: Role)

  /**
   * The validation at the head of `createHousehold`: the name must be a
   * string whose trimmed form has 1 to 100 characters. A missing, non-string,
   * empty or blank name is "required"; the length check comes second.
   */
  function ValidateName(name: FormValue): (r: Result<string, ActionResult>)
    ensures r.Ok? <==> name.StringValue? && 1 <= Utf16Length(Trim(name.s)) <= MaxNameLength
    ensures r.Ok? ==> r.value == Trim(name.s)
    ensures (!name.StringValue? || Blank(name.s))
            ==> r == Err(Fail(400, NameRequired))
    ensures name.StringValue? && Utf16Length(Trim(name.s)) > MaxNameLength ==> r == Err(Fail(400, NameTooLong))
  {
    if !name.StringValue? || name.s == "" || Utf16Length(Trim(name.s)) < 1 then Err(Fail(400, NameRequired))
    else if Utf16Length(Trim(name.s)) > MaxNameLength then Err(Fail(400, NameTooLong))
    else Ok(Trim(name.s))
  }

  /**
   * Surrounding whitespace does not count: a name between blanks is accepted
   * as itself when it is at most 100 code units long, and refused as too
   * long otherwise.
   */
  lemma PaddedName(pre: string, s: string, post: string)
    requires Blank(pre) && Blank(post)
    requires s != [] && !IsTrimmable(s[0]) && !IsTrimmable(s[|s| - 1])
    ensures Utf16Length(s) <= MaxNameLength ==> ValidateName(StringValue(pre + s + post)) == Ok(s)
    ensures Utf16Length(s) > MaxNameLength ==> ValidateName(StringValue(pre + s + post)) == Err(Fail(400, NameTooLong))
  {
    TrimOfPadded(pre, s, post);
  }

  /**
   * The limit counts code units, not characters: 51 characters from outside
   * the Basic Multilingual Plane (an emoji each, say) are refused as too long.
   */
  lemma AstralNameRefused(s: string)
    requires |s| == 51 && forall k :: 0 <= k < |s| ==> s[k] as int >= 0x10000
    ensures |Trim(s)| <= MaxNameLength
    ensures ValidateName(StringValue(s)) == Err(Fail(400, NameTooLong))
  {
    Utf16LengthAstral(s);
    PaddedName("", s, "");
    assert "" + s + "" == s;
  }

  /**
   * `load` for the user `user` (`None` when signed out): one entry per
   * membership row of the user, joined with its household. Signed out, the
   * list is empty.
   */
  function Load(user: Option<string>, households: map<string, Household>, members: map<string, HouseholdMember>)
    : (r: set<HouseholdSummary>)
    ensures user.None? ==> r == {}
    ensures forall s :: s in r ==> s.id in households
    ensures user.Some? ==>
              forall s :: s in r ==>
                exists mid :: mid in members && members[mid].userId == user.value
                              && s == Summary(members[mid].householdId, households[s.id], members[mid].role)
    ensures user.Some? ==>
              forall mid :: mid in members && members[mid].userId == user.value && members[mid].householdId in households
                ==> Summary(members[mid].householdId, households[members[mid].householdId], members[mid].role) in r
  {
    if user.None? then {}
    else
      set hid, mid | hid in households && mid in members && members[mid].householdId == hid
                     && members[mid].userId == user.value
        :: Summary(hid, households[hid], members[mid].role)
  }

  function Summary(id: string, h: Household, role: Role): HouseholdSummary
  {
    HouseholdSummary(id, h.name, h.imageUrl, h.bannerUrl, h.primaryColor, h.secondaryColor, h.createdAt, role)
  }

  /** The row inserted into `households`. */
  function NewHousehold(name: string, creatorId: string, now: int): Household
  {
    Household(name, creatorId, None, None, None, None, now, now)
  }

  /** The row inserted into `household_members`: the creator, as admin, joined when the household was created. */
  function NewAdmin(householdId: string, userId: string, now: int): HouseholdMember
  {
    HouseholdMember(householdId, userId, Admin, None, now)
  }

  /** `households` and `household_members`, keyed by `id`. */
  class HouseholdTables {
    var households: map<string, Household>
    var members: map<string, HouseholdMember>

    constructor ()
      ensures households == map[] && members == map[]
    {
      households := map[];
      members := map[];
    }

    /** Whether the `households` insert succeeds: no fault and a free primary key. */
    predicate HouseholdInsertOk(householdId: string, fault: InsertFault)
      reads this
    {
      fault != HouseholdInsertFails && householdId !in households
    }

    /** Whether the `household_members` insert, run after a successful first insert, succeeds. */
    predicate MemberInsertOk(memberId: string, fault: InsertFault)
      reads this
    {
      fault != MemberInsertFails && memberId !in members
    }

    /**
     * The `createHousehold` action as written, for the signed-in user `user`
     * at time `now`, with generated ids `householdId` and `memberId`. Signed
     * out it redirects to `/login`; an invalid name fails with 400; otherwise
     * it inserts what the database accepts and, because the redirect thrown
     * inside the `try` is caught with every other exception, ALWAYS answers
     * `fail(500)`.
     */
    method CreateHousehold(user: Option<string>, name: FormValue, now: int, householdId: string, memberId: string,
                           fault: InsertFault)
      returns (outcome: ActionResult)
      modifies this
      ensures user.None? ==> outcome == Redirect(302, "/login")
      ensures user.Some? && ValidateName(name).Err? ==> outcome == ValidateName(name).error
      ensures user.Some? && ValidateName(name).Ok? ==> outcome == Fail(500, CreateFailed)
      ensures user.None? || ValidateName(name).Err? ==> households == old(households) && members == old(members)
      ensures user.Some? && ValidateName(name).Ok? ==>
                var hOk := old(HouseholdInsertOk(householdId, fault));
                var mOk := hOk && old(MemberInsertOk(memberId, fault));
                && households == (if hOk then old(households)[householdId := NewHousehold(ValidateName(name).value, user.value, now)]
                                  else old(households))
                && members == (if mOk then old(members)[memberId := NewAdmin(householdId, user.value, now)]
                               else old(members))
    {
      if user.None? {
        return Redirect(302, "/login");
      }
      var validated := ValidateName(name);
      if validated.Err? {
        return validated.error;
      }
      var thrown := InsertBoth(user.value, validated.value, now, householdId, memberId, fault);
      // Whatever was thrown, the insert errors and the redirect alike, the catch turns it into fail(500).
      return Fail(500, CreateFailed);
    }

    /**
     * The body of the `try`: the two inserts, then `throw redirect(...)`.
     * Returns what is thrown: the database error, or the redirect to the
     * new household when both inserts succeed.
     */
    method InsertBoth(userId: string, name: string, now: int, householdId: string, memberId: string,
                      fault: InsertFault)
      returns (thrown: ActionResult)
      modifies this
      ensures var hOk := old(HouseholdInsertOk(householdId, fault));
              var mOk := hOk && old(MemberInsertOk(memberId, fault));
              && households == (if hOk then old(households)[householdId := NewHousehold(name, userId, now)]
                                else old(households))
              && members == (if mOk then old(members)[memberId := NewAdmin(householdId, userId, now)]
                             else old(members))
              && thrown == if mOk then Redirect(302, "/household/" + householdId) else Fail(500, CreateFailed)
    {
      if !HouseholdInsertOk(householdId, fault) {
        return Fail(500, CreateFailed);
      }
      households := households[householdId := NewHousehold(name, userId, now)];
      if !MemberInsertOk(memberId, fault) {
        return Fail(500, CreateFailed);
      }
      members := members[memberId := NewAdmin(householdId, userId, now)];
      return Redirect(302, "/household/" + householdId);
    }

    /**
     * The action as evidently intended: the redirect to the new household is
     * thrown after the `try`, so a successful creation redirects and only a
     * database error answers `fail(500)`.
     */
    method CreateHouseholdCorrected(user: Option<string>, name: FormValue, now: int, householdId: string,
                                    memberId: string, fault: InsertFault)
      returns (outcome: ActionResult)
      modifies this
      ensures user.None? ==> outcome == Redirect(302, "/login")
      ensures user.Some? && ValidateName(name).Err? ==> outcome == ValidateName(name).error
      ensures user.None? || ValidateName(name).Err? ==> households == old(households) && members == old(members)
      ensures user.Some? && ValidateName(name).Ok? ==>
                var hOk := old(HouseholdInsertOk(householdId, fault));
                var mOk := hOk && old(MemberInsertOk(memberId, fault));
                && outcome == (if mOk then Redirect(302, "/household/" + householdId) else Fail(500, CreateFailed))
                && households == (if hOk then old(households)[householdId := NewHousehold(ValidateName(name).value, user.value, now)]
                                  else old(households))
                && members == (if mOk then old(members)[memberId := NewAdmin(householdId, user.value, now)]
                               else old(members))
    {
      if user.None? {
        return Redirect(302, "/login");
      }
      var validated := ValidateName(name);
      if validated.Err? {
        return validated.error;
      }
      outcome := InsertBoth(user.value, validated.value, now, householdId, memberId, fault);
    }
  }

  /**
   * After both inserts the new household is on its creator's list, with the
   * admin role and the trimmed name.
   */
  lemma CreatedHouseholdIsListed(households: map<string, Household>, members: map<string, HouseholdMember>,
                                 userId: string, name: string, now: int, householdId: string, memberId: string)
    ensures Summary(householdId, NewHousehold(name, userId, now), Admin)
            in Load(Some(userId), households[householdId := NewHousehold(name, userId, now)],
                    members[memberId := NewAdmin(householdId, userId, now)])
  {
    var hs := households[householdId := NewHousehold(name, userId, now)];
    var ms := members[memberId := NewAdmin(householdId, userId, now)];
    assert hs[householdId] == NewHousehold(name, userId, now);
    assert ms[memberId].householdId == householdId && ms[memberId].userId == userId;
  }

  lemma FlatIsValid()
    ensures ValidateName(StringValue("Flat")) == Ok("Flat")
  {
    PaddedName("", "Flat", "");
    assert "" + "Flat" + "" == "Flat";
  }

  /**
   * The discrepancy, on one concrete request: a valid name, no database
   * error, both rows inserted and listed, and still the answer is
   * `fail(500)` where the corrected action redirects to the new household.
   */
  method CreatedButReportedAsFailure() returns (asWritten: ActionResult, corrected: ActionResult, listed: bool)
    ensures asWritten == Fail(500, CreateFailed)
    ensures corrected == Redirect(302, "/household/h1")
    ensures listed
  {
    var name := StringValue("Flat");
    FlatIsValid();
    var tables := new HouseholdTables();
    asWritten := tables.CreateHousehold(Some("u1"), name, 0, "h1", "m1", NoFault);
    CreatedHouseholdIsListed(map[], map[], "u1", "Flat", 0, "h1", "m1");
    assert tables.households == map["h1" := NewHousehold("Flat", "u1", 0)];
    assert tables.members == map["m1" := NewAdmin("h1", "u1", 0)];
    listed := Summary("h1", NewHousehold("Flat", "u1", 0), Admin) in Load(Some("u1"), tables.households, tables.members);
    var fixedTables := new HouseholdTables();
    corrected := fixedTables.CreateHouseholdCorrected(Some("u1"), name, 0, "h1", "m1", NoFault);
  }
}
