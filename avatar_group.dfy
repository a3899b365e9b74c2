/** frontend/Task-manager/src/component/layout/AvatarGroup.jsx: the row of
    assignee avatars. The first `maxDisplay` users get an avatar, a "+k"
    badge counts the rest, and an empty list shows a placeholder. */
module AvatarGroup {
  import opened Common
  import opened ClientModel

  const DefaultMaxDisplay := 3

  /** `s.slice(0, end)`: a negative end counts from the back. */
  function SliceTo<T>(s: seq<T>, end: int): (r: seq<T>)
    ensures r <= s
    ensures end >= 0 ==> |r| == Min(end, |s|)
    ensures end < 0 ==> |r| == Max(|s| + end, 0)
  {
    if end >= 0 then Take(s, end) else s[..Max(|s| + end, 0)]
  }

  /** What one avatar shows: the profile image when its URL is truthy, else
      the first letter of the name upper-cased, or "U" when there is none. */
  datatype Face = Image(url: string) | Initial(letter: string)

  function FaceOf(u: ClientUser): (f: Face)
    ensures Truthy(u.profileImageUrl) <==> f.Image?
    ensures f.Initial? ==> |f.letter| == 1
    ensures f.Initial? && Truthy(u.name) ==> f.letter == ToUpper([u.name.value[0]])
    ensures f.Initial? && !Truthy(u.name) ==> f.letter == "U"
  {
    if Truthy(u.profileImageUrl) then Image(u.profileImageUrl.value)
    else if Truthy(u.name) then Initial(ToUpper([u.name.value[0]]))
    else Initial("U")
  }

  /** The placeholder, or the avatars shown with the badge number when it
      is drawn. */
  datatype View = Unassigned | Avatars(shown: seq<ClientUser>, badge: Option<int>)

  function Render(users: seq<ClientUser>, maxDisplay: int): (v: View)
    ensures users == [] <==> v == Unassigned
    ensures v.Avatars? ==> v.shown == SliceTo(users, maxDisplay)
    ensures v.Avatars? ==> (v.badge.Some? <==> |users| > maxDisplay)
    ensures v.Avatars? && v.badge.Some? ==> v.badge.value == |users| - maxDisplay
  {
    if |users| == 0 then Unassigned
    else
      var remainingCount := |users| - maxDisplay;
      Avatars(SliceTo(users, maxDisplay), if remainingCount > 0 then Some(remainingCount) else None)
  }

  /** With a non-negative limit the first min(limit, n) users are shown in
      order, and when the list is longer the avatars and the badge number
      add up to the whole list. */
  lemma ShownPlusBadgeIsAll(users: seq<ClientUser>, maxDisplay: nat)
    requires users != []
    ensures Render(users, maxDisplay).shown == users[..Min(maxDisplay, |users|)]
    ensures |users| > maxDisplay ==> |Render(users, maxDisplay).shown| + Render(users, maxDisplay).badge.value == |users|
    ensures |users| <= maxDisplay ==> Render(users, maxDisplay) == Avatars(users, None)
  {
  }

  /** A negative limit is taken as JavaScript's slice takes it: it drops
      users from the back, and the badge then counts more than the rest. */
  lemma NegativeLimit(a: ClientUser, b: ClientUser, c: ClientUser)
    ensures Render([a, b, c], -1) == Avatars([a, b], Some(4))
  {
    assert [a, b, c][..2] == [a, b];
  }
}
