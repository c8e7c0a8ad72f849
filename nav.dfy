/**
 * The dashboard's navigation bar (`components/dashboard-nav.tsx`): the user's initials, the role label,
 * which links are shown and highlighted, and how the signed-in user and role follow auth changes.
 */
module Nav {
  import opened Wrappers
  import opened Seqs
  import opened Text

  datatype Link = Link(name: string, href: string)

  /** The five entries of `navigation`, in order. */
  const Navigation := [
    Link("Kalendar", "/dashboard"),
    Link("Zaposleni", "/dashboard/employees"),
    Link("Radno Vrijeme-Grupe", "/dashboard/work-groups"),
    Link("Izvještaji", "/dashboard/reports"),
    Link("Podešavanja", "/dashboard/settings")
  ]

  /** `email.split('@')[0]`: the text before the first `@`, or all of it. */
  function LocalPart(email: string): (r: string)
    ensures |r| <= |email| && r == email[..|r|]
    ensures forall i :: 0 <= i < |r| ==> r[i] != '@'
    ensures |r| < |email| ==> email[|r|] == '@'
  {
    var at := FindIndex(email, (c: char) => c == '@');
    if at < 0 then email else email[..at]
  }

  /** `getUserInitials`: the first two characters of the local part, upper-cased. */
  function Initials(email: string): (r: string)
    ensures |r| <= 2
    ensures forall i :: 0 <= i < |r| ==> r[i] != '@'
  {
    var local := LocalPart(email);
    ToUpper(if |local| < 2 then local else local[..2])
  }

  /** The initials are the upper-cased start of the address, as long as two characters or up to the `@`. */
  lemma InitialsPrefix(email: string)
    ensures |Initials(email)| == (if |LocalPart(email)| < 2 then |LocalPart(email)| else 2)
    ensures forall i :: 0 <= i < |Initials(email)| ==> Initials(email)[i] == ToUpperChar(email[i])
    ensures (forall i :: 0 <= i < |email| ==> email[i] != '@') && |email| >= 2 ==> |Initials(email)| == 2
  {
    var local := LocalPart(email);
    if forall i :: 0 <= i < |email| ==> email[i] != '@' {
      assert |local| == |email|;
    }
  }

  /** `getRoleDisplayName`. */
  function RoleDisplayName(role: string): string
  {
    if role == "admin" then "Administrator"
    else if role == "manager" then "Menadžer"
    else "Korisnik"
  }

  /** Only `admin` and `manager` have their own labels; every other role, `user` included, reads Korisnik. */
  lemma RoleDisplayNameCases(role: string)
    ensures RoleDisplayName(role) == "Korisnik" <==> role != "admin" && role != "manager"
    ensures RoleDisplayName(role) == "Administrator" <==> role == "admin"
  {
  }

  /** The role read from `user_roles`, `user` when there is none (`userRoleData?.role || 'user'`). */
  function RoleOrUser(reply: Option<string>): (role: string)
    ensures role != ""
  {
    if reply.Some? && reply.value != "" then reply.value else "user"
  }

  /** The links show `pathname === href` as active, and at most one link of the bar is active. */
  lemma ActiveLinkUnique(pathname: string)
    ensures forall i, j :: 0 <= i < j < |Navigation| ==> !(Navigation[i].href == pathname && Navigation[j].href == pathname)
  {
  }

  /** The bar's state. */
  class DashboardNav {
    var user: Option<string>
    var role: string
    var loading: bool
    var pathname: string

    /** The links shown: all of them for a signed-in user away from the landing page, none otherwise. */
    function VisibleLinks(): (links: seq<Link>)
      reads this
      ensures links == Navigation || links == []
      ensures links != [] <==> user.Some? && pathname != "/"
    {
      if user.Some? && pathname != "/" then Navigation else []
    }

    /** A link is highlighted. */
    predicate IsActive(link: Link)
      reads this
    {
      pathname == link.href
    }

    constructor(path: string)
      ensures user.None? && role == "user" && loading && pathname == path
    {
      user := None;
      role := "user";
      loading := true;
      pathname := path;
    }

    /** `getUser` on mount: stores the user and, when there is one, the role read for them. */
    method LoadUser(current: Option<string>, roleReply: Option<string>)
      modifies this
      ensures user == current && !loading && pathname == old(pathname)
      ensures role == (if current.Some? then RoleOrUser(roleReply) else old(role))
    {
      user := current;
      if current.Some? {
        role := RoleOrUser(roleReply);
      }
      loading := false;
    }

    /** The `onAuthStateChange` listener: the session's user and their role; without a session the role falls back to `user`. */
    method AuthChange(sessionUser: Option<string>, roleReply: Option<string>)
      modifies this
      ensures user == sessionUser && !loading && pathname == old(pathname)
      ensures role == (if sessionUser.Some? then RoleOrUser(roleReply) else "user")
      ensures sessionUser.None? ==> VisibleLinks() == [] && RoleDisplayName(role) == "Korisnik"
    {
      user := sessionUser;
      if sessionUser.Some? {
        role := RoleOrUser(roleReply);
      } else {
        role := "user";
      }
      loading := false;
    }
  }
}
