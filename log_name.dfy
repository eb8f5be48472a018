/** The log name handling at the start of TailLogsServlet.doGet. */
module LogName {
  import opened Wrappers

  const Suffix: string := ".log"
  const DefaultName: string := "error"

  predicate EndsWith(s: string, suffix: string)
  {
    |suffix| <= |s| && s[|s| - |suffix|..] == suffix
  }

  /** The file name for the `log` request parameter: a missing or empty name
      means "error", and ".log" is added unless the name already ends with it. */
  function NormalizeName(log: Option<string>): (name: string)
    ensures EndsWith(name, Suffix)
    ensures log.None? || log.value == [] ==> name == DefaultName + Suffix
    ensures log.Some? && log.value != [] ==> name == log.value || name == log.value + Suffix
    ensures log.Some? && EndsWith(log.value, Suffix) ==> name == log.value
  {
    var n := if log.None? || log.value == [] then DefaultName else log.value;
    if EndsWith(n, Suffix) then n else n + Suffix
  }

  /** Normalising a normalised name changes nothing. */
  lemma NormalizeIdempotent(log: Option<string>)
    ensures NormalizeName(Some(NormalizeName(log))) == NormalizeName(log)
  {
  }

  /** Naming a log with or without its ".log" suffix selects the same file. */
  lemma SuffixIsOptional(n: string)
    requires n != [] && !EndsWith(n, Suffix)
    ensures NormalizeName(Some(n)) == NormalizeName(Some(n + Suffix))
  {
    assert (n + Suffix)[|n + Suffix| - |Suffix|..] == Suffix;
  }

  lemma AccessExample()
    ensures NormalizeName(Some("access")) == "access.log"
    ensures NormalizeName(Some("access.log")) == "access.log"
    ensures NormalizeName(None) == NormalizeName(Some("")) == "error.log"
  {
    assert !EndsWith("access", Suffix);
  }
}
