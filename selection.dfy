/** The default choice the pages make when a list of options loads: the
    first option, unless something is chosen already. */
module Selection {

  /** The selection after the options load: the first option when none is
      selected yet (the empty string), otherwise the current one. */
  function AutoSelected(options: seq<string>, selected: string): (r: string)
    ensures selected != "" ==> r == selected
    ensures selected == "" && |options| > 0 ==> r == options[0]
    ensures selected == "" && |options| == 0 ==> r == ""
    ensures r == "" || r == selected || r in options
  {
    if |options| > 0 && selected == "" then options[0] else selected
  }
}
