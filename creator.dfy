/** The app creator's submit: the name guard and the choice of workflow. */
module Creator {
  import opened Wrappers
  import opened Text
  import opened Types
  import opened Seed

  /** `handleSubmit`: a blank name (after trimming) is refused; otherwise the name, icon and
      colour go through unchanged, with the edited app's workflow or else the default one. */
  function Submit(name: string, icon: string, themeColor: string, appToEdit: Option<AppDef>): (r: Option<AppDraft>)
    ensures r.None? <==> AllSpace(name)
    ensures r.Some? ==> r.value.name == name && r.value.icon == icon && r.value.themeColor == themeColor
    ensures r.Some? && appToEdit.Some? ==> r.value.workflow == appToEdit.value.workflow
    ensures r.Some? && appToEdit.None? ==> r.value.workflow == DefaultWorkflow()
  {
    TrimEmptyIffAllSpace(name);
    if Trim(name) == "" then None
    else
      var workflow := if appToEdit.Some? then appToEdit.value.workflow else DefaultWorkflow();
      Some(AppDraft(name, icon, themeColor, workflow))
  }

  /** Resubmitting an app unchanged reproduces it, id aside. */
  lemma EditRoundTrip(app: AppDef)
    requires !AllSpace(app.name)
    ensures var r := Submit(app.name, app.icon, app.themeColor, Some(app));
            r.Some? && AppDef(app.id, r.value.name, r.value.icon, r.value.themeColor, r.value.workflow) == app
  {
  }
}
