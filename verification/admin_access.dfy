/**
  The `isAdmin` check shared by the two administrator routes
  (app/api/admin/users/route.ts and app/api/admin/submissions/route.ts): a
  name is an administrator when its key equals the key of one of the
  `;`-separated names in the ADMIN_ALLOWLIST environment variable.
 */
module AdminAccess {
  import opened Text
  import opened Types
  import opened Storage

  /** The keys of the `;`-separated entries, in order. */
  function AdminKeys(allowlist: string): seq<string> {
    var parts := Split(allowlist, ';');
    seq(|parts|, i requires 0 <= i < |parts| => Normalize(parts[i]))
  }

  /** `isAdmin(fio)`; `allowlist` is the environment variable, if set. */
  predicate IsAdmin(allowlist: Option<string>, fio: string) {
    allowlist.Some? && allowlist.value != "" && Normalize(fio) in AdminKeys(allowlist.value)
  }

  /** For a non-blank name: access is granted exactly when some non-blank entry
      of the list has the same key. Blank entries, an empty list and a missing
      variable grant nothing. */
  lemma AdminIffListed(allowlist: Option<string>, fio: string)
    requires Trim(fio) != ""
    ensures IsAdmin(allowlist, fio) <==>
      allowlist.Some? &&
      exists p :: p in Split(allowlist.value, ';') && Trim(p) != "" && Normalize(p) == Normalize(fio)
  {
    NormalizeEmptyIffBlank(fio);
    if allowlist.Some? {
      var l := allowlist.value;
      var parts := Split(l, ';');
      var keys := AdminKeys(l);
      if IsAdmin(allowlist, fio) {
        var i :| 0 <= i < |keys| && keys[i] == Normalize(fio);
        NormalizeEmptyIffBlank(parts[i]);
        assert parts[i] in parts;
      }
      if exists p :: p in parts && Trim(p) != "" && Normalize(p) == Normalize(fio) {
        var p :| p in parts && Trim(p) != "" && Normalize(p) == Normalize(fio);
        var i :| 0 <= i < |parts| && parts[i] == p;
        assert keys[i] == Normalize(fio);
        assert l != "" by {
          TrimSpec(p);
          JoinHasPart(parts, ';', i);
        }
      }
    }
  }

  /** Whoever is written in the list, under any spelling with the same key, is
      an administrator. */
  lemma ListedNamesAreAdmins(names: seq<string>, i: nat, fio: string)
    requires i < |names|
    requires forall k :: 0 <= k < |names| ==> ';' !in names[k]
    requires Trim(fio) != "" && Normalize(fio) == Normalize(names[i])
    ensures IsAdmin(Some(Join(names, ';')), fio)
  {
    SplitJoin(names, ';');
    NormalizeEmptyIffBlank(fio);
    NormalizeEmptyIffBlank(names[i]);
    TrimSpec(names[i]);
    JoinHasPart(names, ';', i);
    assert AdminKeys(Join(names, ';'))[i] == Normalize(fio);
  }
}
