/** Which peer entry `register_node` records for a parsed address. */
module Nodes {
  import opened Wrappers

  /** The two components of `urlparse(address)` that registration reads. */
  datatype ParsedUrl = ParsedUrl(netloc: string, path: string)

  /** Attribute access on a parse result; any name other than its fields raises AttributeError. */
  function UrlAttribute(url: ParsedUrl, name: string): Result<string> {
    if name == "netloc" then Ok(url.netloc)
    else if name == "path" then Ok(url.path)
    else Err(AttributeError(name))
  }

  /**
   * The entry registration adds, reading the host through the attribute `hostAttr`:
   * the host when non-empty, else the path when non-empty, else `ValueError('Invalid URL')`.
   */
  function NodeEntry(url: ParsedUrl, hostAttr: string): Result<string> {
    match UrlAttribute(url, hostAttr)
    case Err(e) => Err(e)
    case Ok(host) =>
      if host != "" then Ok(host)
      else if url.path != "" then Ok(url.path)
      else Err(ValueError("Invalid URL"))
  }

  /** The attribute name as the source spells it at lines 33-34. */
  const SourceHostAttr: string := "netlock"

  /** The attribute that `urlparse` results have. */
  const HostAttr: string := "netloc"

  /** As written, registration raises AttributeError for every address, including well-formed URLs. */
  lemma NetlockTypoRejectsEveryAddress(url: ParsedUrl)
    ensures NodeEntry(url, SourceHostAttr) == Err(AttributeError("netlock"))
    ensures url.netloc != "" ==> NodeEntry(url, HostAttr) == Ok(url.netloc)
  {
  }

  /**
   * With the attribute spelled `netloc`: an entry is produced exactly when the host or
   * the path is non-empty; it is the host when there is one, else the path.
   */
  lemma NodeEntryRule(url: ParsedUrl)
    ensures NodeEntry(url, HostAttr).Ok? <==> url.netloc != "" || url.path != ""
    ensures NodeEntry(url, HostAttr).Ok? ==>
      NodeEntry(url, HostAttr).value == if url.netloc != "" then url.netloc else url.path
    ensures NodeEntry(url, HostAttr).Err? ==> NodeEntry(url, HostAttr).error == ValueError("Invalid URL")
  {
  }
}
