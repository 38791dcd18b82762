/** Host-name rules for the admin site, which lives on `<sub>.<base>`.
    `window.location` is the `Location` value, `import.meta.env.DEV` the
    flag `dev`, and the admin subdomain the value of `AdminSubdomain`. */
module Subdomain {
  import opened Wrappers
  import opened Text

  const DEFAULT_ADMIN_SUBDOMAIN: string := "manage"

  /** `VITE_ADMIN_SUBDOMAIN || 'manage'` */
  function AdminSubdomain(configured: Option<string>): (sub: string)
    ensures sub != ""
    ensures configured.Some? && configured.value != "" ==> sub == configured.value
  {
    if configured.Some? && configured.value != "" then configured.value else DEFAULT_ADMIN_SUBDOMAIN
  }

  /** The parts of `window.location` that are read; `adminParam` is
      `URLSearchParams(search).get('admin')`. */
  datatype Location = Location(protocol: string, hostname: string, port: string, adminParam: Option<string>)

  function AdminPrefix(sub: string): string {
    sub + "."
  }

  function IsAdminSubdomain(loc: Location, dev: bool, sub: string): (b: bool)
    ensures !dev ==> (b <==> StartsWith(loc.hostname, AdminPrefix(sub)))
    ensures dev && loc.adminParam == Some("true") ==> b
    ensures b <==> (dev && loc.adminParam == Some("true")) || StartsWith(loc.hostname, AdminPrefix(sub))
  {
    if dev && loc.adminParam == Some("true") then true
    else StartsWith(loc.hostname, AdminPrefix(sub))
  }

  /** On the admin site, the host name with the first `<sub>.` removed. */
  function GetBaseDomain(loc: Location, dev: bool, sub: string): (base: string)
    ensures !IsAdminSubdomain(loc, dev, sub) ==> base == loc.hostname
    ensures IsAdminSubdomain(loc, dev, sub) ==> base == ReplaceFirst(loc.hostname, AdminPrefix(sub), "")
  {
    if IsAdminSubdomain(loc, dev, sub) then ReplaceFirst(loc.hostname, AdminPrefix(sub), "")
    else loc.hostname
  }

  /** `protocol//<sub>.<base>` and `:port` when there is a port. */
  function GetAdminUrl(loc: Location, dev: bool, sub: string): (url: string)
    ensures loc.port == "" ==> url == loc.protocol + "//" + AdminPrefix(sub) + GetBaseDomain(loc, dev, sub)
    ensures loc.port != "" ==> url == loc.protocol + "//" + AdminPrefix(sub) + GetBaseDomain(loc, dev, sub) + ":" + loc.port
  {
    var portSuffix := if loc.port != "" then ":" + loc.port else "";
    loc.protocol + "//" + AdminPrefix(sub) + GetBaseDomain(loc, dev, sub) + portSuffix
  }

  /** On `<sub>.<b>` the base domain is `b`. */
  lemma BaseOfAdminHost(loc: Location, dev: bool, sub: string, b: string)
    requires loc.hostname == AdminPrefix(sub) + b
    ensures IsAdminSubdomain(loc, dev, sub)
    ensures GetBaseDomain(loc, dev, sub) == b
  {
    assert loc.hostname[..|AdminPrefix(sub)|] == AdminPrefix(sub);
    assert loc.hostname[|AdminPrefix(sub)|..] == b;
  }

  /** The admin URL built on the public site points at `<sub>.<host>`, and
      the one built on the admin site points back at the same host. */
  lemma AdminUrlRoundTrip(loc: Location, sub: string)
    ensures !StartsWith(loc.hostname, AdminPrefix(sub)) ==>
              GetAdminUrl(loc, false, sub) == loc.protocol + "//" + AdminPrefix(sub) + loc.hostname
                                               + (if loc.port != "" then ":" + loc.port else "")
    ensures StartsWith(loc.hostname, AdminPrefix(sub)) ==>
              GetAdminUrl(loc, false, sub) == loc.protocol + "//" + loc.hostname
                                               + (if loc.port != "" then ":" + loc.port else "")
  {
    var p := AdminPrefix(sub);
    if StartsWith(loc.hostname, p) {
      var b := loc.hostname[|p|..];
      assert loc.hostname == p + b;
      BaseOfAdminHost(loc, false, sub, b);
      assert loc.protocol + "//" + p + b == loc.protocol + "//" + loc.hostname;
    }
  }

  /** With the development override on a host that does not start with
      `<sub>.`, the first `<sub>.` found anywhere in the host is removed. */
  lemma DevOverrideStripsInnerOccurrence(loc: Location, sub: string, a: string, b: string)
    requires loc.adminParam == Some("true") && a != "" && sub != "" && a[0] != sub[0]
    requires loc.hostname == a + AdminPrefix(sub) + b
    requires !Contains(a + sub, AdminPrefix(sub))
    ensures IsAdminSubdomain(loc, true, sub)
    ensures !StartsWith(loc.hostname, AdminPrefix(sub))
    ensures GetBaseDomain(loc, true, sub) == a + b
  {
    var p := AdminPrefix(sub);
    assert p[..|p| - 1] == sub;
    assert loc.hostname[0] == a[0];
    ReplaceFirstAfter(a, p, b);
  }

  /** With the development override, a host without `<sub>.` anywhere in
      it is its own base domain. */
  lemma DevOverrideWithoutOccurrence(loc: Location, sub: string)
    requires loc.adminParam == Some("true") && !Contains(loc.hostname, AdminPrefix(sub))
    ensures IsAdminSubdomain(loc, true, sub)
    ensures GetBaseDomain(loc, true, sub) == loc.hostname
  {
  }

  /** `ReplaceFirst(a + p + b, p, "") == a + b` when `p` does not occur
      earlier. */
  lemma {:induction false} ReplaceFirstAfter(a: string, p: string, b: string)
    requires p != [] && !Contains(a + p[..|p| - 1], p)
    ensures ReplaceFirst(a + p + b, p, "") == a + b
    decreases |a|
  {
    var s := a + p + b;
    if |a| == 0 {
      assert s == p + b;
      assert s[..|p|] == p;
      assert s[|p|..] == b;
    } else {
      var t := a + p[..|p| - 1];
      assert !StartsWith(t, p) && !Contains(t[1..], p);
      assert t[1..] == a[1..] + p[..|p| - 1];
      NotPrefixBefore(a, p, b);
      ReplaceFirstAfter(a[1..], p, b);
      assert s == a + (p + b);
      DropFirst(a, p + b);
      DropFirst(a, b);
      assert s[1..] == a[1..] + p + b;
    }
  }

  /** `p` does not start `a + p + b` when it does not start `a` followed by
      all but the last character of `p`. */
  lemma NotPrefixBefore(a: string, p: string, b: string)
    requires |a| > 0 && p != [] && !StartsWith(a + p[..|p| - 1], p)
    ensures !StartsWith(a + p + b, p)
  {
    var t := a + p[..|p| - 1];
    var s := a + p + b;
    assert p == p[..|p| - 1] + p[|p| - 1..];
    assert s == t + (p[|p| - 1..] + b);
    assert s[..|t|] == t;
    assert s[..|p|] == t[..|p|];
  }

  lemma DropFirst(a: string, rest: string)
    requires |a| > 0
    ensures (a + rest)[1..] == a[1..] + rest && (a + rest)[0] == a[0]
    ensures a + rest == [a[0]] + (a[1..] + rest)
  {
  }
}
