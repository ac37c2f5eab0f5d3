/** The constant tables that say, per backup category, which shell script
    runs the backup and which script token carries which config key. */
module Dispatch {
  import opened Results
  import PyValues

  /** An insertion-ordered `dict[str, str]` from script token to config key. */
  type TokenKeyMap = seq<(string, string)>

  const StandardPathTokenKeyMap: TokenKeyMap := [
    ("-r", "restic_repo"),
    ("-p", "restic_password_file"),
    ("-s", "backup_source_path"),
    ("-e", "exclude_paths")
  ]

  const LogicalVolumeTokenKeyMap: TokenKeyMap := [
    ("-g", "vg_name"),
    ("-l", "lv_name"),
    ("-z", "snapshot_size"),
    ("-r", "restic_repo"),
    ("-p", "restic_password_file"),
    ("-s", "backup_source_path"),
    ("-e", "exclude_paths")
  ]

  datatype DispatchEntry = DispatchEntry(scriptName: string, tokenKeyMap: TokenKeyMap)

  /** The keys of RESOURCE_DISPATCH, in order. */
  const Categories: seq<string> := ["standard_path", "logical_volume_root", "logical_volume_nonroot"]

  /** `RESOURCE_DISPATCH.get(category)`. */
  function ResourceDispatch(category: string): (r: Option<DispatchEntry>)
    ensures r.Some? <==> category in Categories
    ensures category == "standard_path" ==> r == Some(DispatchEntry("backup_path.sh", StandardPathTokenKeyMap))
    ensures category == "logical_volume_root" ==> r == Some(DispatchEntry("backup_lv_root.sh", LogicalVolumeTokenKeyMap))
    ensures category == "logical_volume_nonroot" ==> r == Some(DispatchEntry("backup_lv_nonroot.sh", LogicalVolumeTokenKeyMap))
  {
    if category == "standard_path" then Some(DispatchEntry("backup_path.sh", StandardPathTokenKeyMap))
    else if category == "logical_volume_root" then Some(DispatchEntry("backup_lv_root.sh", LogicalVolumeTokenKeyMap))
    else if category == "logical_volume_nonroot" then Some(DispatchEntry("backup_lv_nonroot.sh", LogicalVolumeTokenKeyMap))
    else None
  }

  function Tokens(m: TokenKeyMap): (r: seq<string>)
    ensures |r| == |m| && forall i :: 0 <= i < |m| ==> r[i] == m[i].0
  {
    seq(|m|, i requires 0 <= i < |m| => m[i].0)
  }

  /** Distinct tokens name distinct config keys. */
  predicate Injective(m: TokenKeyMap)
  {
    forall i, j :: 0 <= i < j < |m| ==> m[i].1 != m[j].1
  }

  /** The standard-path map is a dict (no token twice) with exactly the
      tokens -r, -p, -s, -e, and it is injective. */
  lemma StandardPathMapWellFormed()
    ensures Tokens(StandardPathTokenKeyMap) == ["-r", "-p", "-s", "-e"]
    ensures PyValues.UniqueKeys(StandardPathTokenKeyMap) && Injective(StandardPathTokenKeyMap)
  {
  }

  /** The logical-volume map is -g, -l, -z followed by the standard-path
      map's entries; it is a dict and it is injective. */
  lemma LogicalVolumeMapWellFormed()
    ensures LogicalVolumeTokenKeyMap == [("-g", "vg_name"), ("-l", "lv_name"), ("-z", "snapshot_size")] + StandardPathTokenKeyMap
    ensures PyValues.UniqueKeys(LogicalVolumeTokenKeyMap) && Injective(LogicalVolumeTokenKeyMap)
  {
  }

  /** Both maps hold "-r" and "-p", so the per-repository argument builder
      always has repository values to put in their place. */
  lemma RepoTokensPresent(category: string)
    requires ResourceDispatch(category).Some?
    ensures "-r" in Tokens(ResourceDispatch(category).value.tokenKeyMap)
    ensures "-p" in Tokens(ResourceDispatch(category).value.tokenKeyMap)
  {
    var t := Tokens(ResourceDispatch(category).value.tokenKeyMap);
    if category == "standard_path" {
      assert t[0] == "-r" && t[1] == "-p";
    } else {
      assert t[3] == "-r" && t[4] == "-p";
    }
  }

  /** Exactly three categories exist, and the two logical-volume categories
      share one token map but run different scripts. */
  lemma ExactlyThreeCategories(category: string)
    ensures ResourceDispatch(category).Some? <==>
      category == "standard_path" || category == "logical_volume_root" || category == "logical_volume_nonroot"
    ensures ResourceDispatch("logical_volume_root").value.tokenKeyMap == ResourceDispatch("logical_volume_nonroot").value.tokenKeyMap
    ensures ResourceDispatch("logical_volume_root").value.scriptName != ResourceDispatch("logical_volume_nonroot").value.scriptName
  {
  }
}
