/** Which Group Policy Objects a token may apply (libgpo/gpo_sec.c). */
module GpoSec {
  import opened Wire
  import opened Wrappers

  const ACCESS_ALLOWED_OBJECT := 5
  const ACCESS_DENIED_OBJECT := 6
  const SYSTEM_AUDIT_OBJECT := 7
  const SYSTEM_ALARM_OBJECT := 8
  const OBJECT_TYPE_PRESENT: uint32 := 1
  const INHERITED_OBJECT_TYPE_PRESENT: uint32 := 2
  const CONTROL_ACCESS := 0x100
  const APPLY_GROUP_POLICY := "edacfd8f-ffb3-11d1-b41d-00a0c968f939"

  datatype Ace = Ace(aceType: int, objectFlags: uint32, objectGuid: string, inheritedGuid: string,
                     accessMask: uint32, trustee: string)

  datatype Verdict = Granted | Denied | MoreEntries
  datatype Filtering = Apply | AccessDenied | InvalidToken | InvalidDescriptor

  /** The entry is about the right to apply group policy. */
  predicate AboutApplying(ace: Ace)
  {
    && ace.aceType in {ACCESS_ALLOWED_OBJECT, ACCESS_DENIED_OBJECT, SYSTEM_AUDIT_OBJECT, SYSTEM_ALARM_OBJECT}
    && (if ace.objectFlags == OBJECT_TYPE_PRESENT then
          ace.objectGuid == APPLY_GROUP_POLICY || ace.inheritedGuid == APPLY_GROUP_POLICY
        else
          ace.objectFlags == INHERITED_OBJECT_TYPE_PRESENT && ace.inheritedGuid == APPLY_GROUP_POLICY)
  }

  /** The entry speaks about the right to apply and about a member of the token. */
  predicate Concerns(ace: Ace, token: set<string>)
  {
    AboutApplying(ace) && HasBit(ace.accessMask, CONTROL_ACCESS) && ace.trustee in token
  }

  function CheckAce(ace: Ace, token: set<string>): Verdict
  {
    if ace.aceType == ACCESS_DENIED_OBJECT && Concerns(ace, token) then Denied
    else if ace.aceType == ACCESS_ALLOWED_OBJECT && Concerns(ace, token) then Granted
    else MoreEntries
  }

  /** Some entry grants the right to the token and no earlier one denies it. */
  predicate MayApply(aces: seq<Ace>, token: set<string>)
  {
    exists i :: 0 <= i < |aces| && CheckAce(aces[i], token) == Granted
                && forall j :: 0 <= j < i ==> CheckAce(aces[j], token) != Denied
  }

  /** An object entry of the given type whose GUID, in the field its flags name, is that of
      the right to apply group policy, with the control access bit and for a SID of the
      token. */
  predicate Speaks(ace: Ace, aceType: int, token: set<string>)
  {
    && ace.aceType == aceType
    && ace.accessMask / 0x100 % 2 == 1
    && ace.trustee in token
    && (|| (ace.objectFlags == 1 && APPLY_GROUP_POLICY in {ace.objectGuid, ace.inheritedGuid})
        || (ace.objectFlags == 2 && APPLY_GROUP_POLICY == ace.inheritedGuid))
  }

  /** An entry of type 6 that speaks denies, one of type 5 grants, and no other decides. */
  lemma EntryDecides(ace: Ace, token: set<string>)
    ensures CheckAce(ace, token) == Denied <==> Speaks(ace, 6, token)
    ensures CheckAce(ace, token) == Granted <==> Speaks(ace, 5, token)
  {
  }

  function Filter(dacl: Option<seq<Ace>>, token: Option<set<string>>): Filtering
  {
    if token.None? then InvalidToken
    else if dacl.None? then InvalidDescriptor
    else if MayApply(dacl.value, token.value) then Apply
    else AccessDenied
  }

  lemma AllDecide(dacl: Option<seq<Ace>>, token: Option<set<string>>)
    ensures token.Some? && dacl.Some? ==> forall i :: 0 <= i < |dacl.value| ==>
      && (CheckAce(dacl.value[i], token.value) == Denied <==> Speaks(dacl.value[i], 6, token.value))
      && (CheckAce(dacl.value[i], token.value) == Granted <==> Speaks(dacl.value[i], 5, token.value))
  {
    if token.Some? && dacl.Some? {
      forall i | 0 <= i < |dacl.value|
        ensures CheckAce(dacl.value[i], token.value) == Denied <==> Speaks(dacl.value[i], 6, token.value)
        ensures CheckAce(dacl.value[i], token.value) == Granted <==> Speaks(dacl.value[i], 5, token.value)
      {
        EntryDecides(dacl.value[i], token.value);
      }
    }
  }

  /** gpo_apply_security_filtering: the first entry that decides, decides; the default
      is to deny. */
  method ApplySecurityFiltering(dacl: Option<seq<Ace>>, token: Option<set<string>>) returns (r: Filtering)
    ensures r == Filter(dacl, token)
    ensures token.None? <==> r == InvalidToken
    ensures token.Some? ==> (dacl.None? <==> r == InvalidDescriptor)
    ensures token.Some? && dacl.Some? ==>
      (r == Apply <==> exists i :: 0 <= i < |dacl.value| && Speaks(dacl.value[i], 5, token.value)
                                   && forall j :: 0 <= j < i ==> !Speaks(dacl.value[j], 6, token.value))
  {
    AllDecide(dacl, token);
    if token.None? {
      return InvalidToken;
    }
    if dacl.None? {
      return InvalidDescriptor;
    }
    var aces := dacl.value;
    for i := 0 to |aces|
      invariant forall j :: 0 <= j < i ==> CheckAce(aces[j], token.value) == MoreEntries
    {
      var v := CheckAce(aces[i], token.value);
      if v == Denied {
        return AccessDenied;
      }
      if v == Granted {
        return Apply;
      }
    }
    return AccessDenied;
  }
}
