/** What the metadata parser makes of members that are missing. */
module MetadataDefaults {
  import opened Common
  import opened MetadataText

  lemma NoMembers()
    ensures ParseObject("{}").fields == map[]
  {
    assert "{}"[1..] == "}";
  }

  /** They read as empty texts, zeros and empty lists. */
  lemma MissingMembers()
    ensures ParseVersion("{}") == Some(VersionMeta("", "", 0, 0, ""))
    ensures ParseSnapshot("{}") == Some(SnapshotRef("", 0, 0))
    ensures ParseTable("{}") == Some(TableMetadata("", "", "", 0, [], []))
  {
    NoMembers();
    hide ParseObject;
  }
}
