/** The edit-state logic of the video page, `VideoDisplay` in
    public/video-ui/src/components/Video/Display.js: which of the two edit
    forms may open or close, what a click on an edit button does to the
    edit state, whether the status may still be edited, whether a video page
    may be created, and which video the page shows. */
module Display {
  import opened Wrappers

  const MetadataEditable := "metadataEditable"
  const YoutubeEditable := "youtubeEditable"
  const VideoUsageType := "video"

  /** `props.editState`: a flag per form property. A property that is not a
      key reads as `undefined`, which is falsy. */
  type EditState = map<string, bool>

  /** `editState[property]` read as a condition. */
  function Flag(es: EditState, property: string): bool {
    property in es && es[property]
  }

  /** `cannotOpenEditForm`: some form is already being edited. */
  function CannotOpenEditForm(editState: Option<EditState>): (blocked: bool)
    ensures editState.None? ==> !blocked
    ensures editState.Some? ==>
              (blocked <==> Flag(editState.value, MetadataEditable) || Flag(editState.value, YoutubeEditable))
  {
    match editState
    case None => false
    case Some(es) => Flag(es, MetadataEditable) || Flag(es, YoutubeEditable)
  }

  /** The two forms whose errors are kept apart in `props.formErrors`. */
  datatype FormName = MetadataForm | YoutubeForm

  /** The form a property opens, if it names one. */
  function FormFor(property: string): (f: Option<FormName>)
    ensures f == Some(MetadataForm) <==> property == MetadataEditable
    ensures f == Some(YoutubeForm) <==> property == YoutubeEditable
  {
    if property == MetadataEditable then Some(MetadataForm)
    else if property == YoutubeEditable then Some(YoutubeForm)
    else None
  }

  /** `props.formErrors`: for each form, the list of error messages of each field. */
  type FormErrors = map<FormName, map<string, seq<string>>>

  /** `cannotCloseEditForm(property)`: some field of the property's form has
      an error. A form with no recorded errors can be closed. */
  function CannotCloseEditForm(formErrors: FormErrors, property: string): (blocked: bool)
    ensures blocked <==> exists form, field :: FormFor(property) == Some(form) && form in formErrors
                           && field in formErrors[form] && formErrors[form][field] != []
  {
    var form := FormFor(property);
    var errors: map<string, seq<string>> := if form.Some? && form.value in formErrors then formErrors[form.value] else map[];
    exists field :: field in errors && |errors[field]| != 0
  }

  /** The edit state after `manageEditingState(property)`, and whether the
      video was saved on the way. */
  datatype Toggle = Toggle(editState: EditState, savesVideo: bool)

  /** `manageEditingState(property)`: save the video when its form was open,
      then flip the property's flag. */
  function ManageEditingState(es: EditState, property: string): (t: Toggle)
    ensures t.savesVideo <==> Flag(es, property)
    ensures t.editState.Keys == es.Keys + {property}
    ensures Flag(t.editState, property) <==> !Flag(es, property)
    ensures forall p :: p in es && p != property ==> t.editState[p] == es[p]
  {
    Toggle(es[property := !Flag(es, property)], Flag(es, property))
  }

  /** Two clicks on the same button restore a flag that was set, and save the
      video exactly once. */
  lemma ToggleTwice(es: EditState, property: string)
    ensures var once := ManageEditingState(es, property);
            var twice := ManageEditingState(once.editState, property);
            && (property in es ==> twice.editState == es)
            && (property !in es ==> twice.editState == es[property := false])
            && (once.savesVideo != twice.savesVideo)
  {
    var once := ManageEditingState(es, property);
    var twice := ManageEditingState(once.editState, property);
    if property in es {
      assert twice.editState == es;
    }
  }

  /** `cannotEditStatus`: the video has expired. An absent expiry date never
      compares below a number. */
  function CannotEditStatus(expiryDate: Option<int>, now: int): (expired: bool)
    ensures expiryDate.None? ==> !expired
    ensures expiryDate.Some? ==> (expired <==> expiryDate.value <= now)
  {
    expiryDate.Some? && expiryDate.value <= now
  }

  /** Once the status is locked it stays locked as time passes. */
  lemma ExpiryIsFinal(expiryDate: Option<int>, now: int, later: int)
    requires now <= later
    requires CannotEditStatus(expiryDate, now)
    ensures CannotEditStatus(expiryDate, later)
  {
  }

  /** A usage of the video, of which only the type is read. */
  datatype Usage = Usage(kind: string)

  /** `usages.filter(value => value.type === 'video')`. */
  function VideoPageUsages(usages: seq<Usage>): (r: seq<Usage>)
    ensures |r| <= |usages|
    ensures forall u :: u in r <==> u in usages && u.kind == VideoUsageType
    ensures forall u :: multiset(r)[u] == if u.kind == VideoUsageType then multiset(usages)[u] else 0
    ensures IsSubsequence(r, usages)
    decreases |usages|
  {
    if usages == [] then []
    else
      var rest := VideoPageUsages(usages[1..]);
      assert usages == [usages[0]] + usages[1..];
      assert forall u :: u in usages <==> u == usages[0] || u in usages[1..];
      if usages[0].kind == VideoUsageType then
        assert ([usages[0]] + rest)[1..] == rest;
        [usages[0]] + rest
      else rest
  }

  /** `videoPageUsages`: the "Create Video Page" button is rendered iff the
      filter found nothing, that is, iff no usage is a video page. */
  function OffersVideoPageCreation(usages: seq<Usage>): (offered: bool)
    ensures offered <==> forall k :: 0 <= k < |usages| ==> usages[k].kind != VideoUsageType
  {
    NoVideoPageIffEmpty(usages);
    |VideoPageUsages(usages)| == 0
  }

  /** The filter finds nothing iff no usage is a video page. */
  lemma NoVideoPageIffEmpty(usages: seq<Usage>)
    ensures |VideoPageUsages(usages)| == 0 <==> forall k :: 0 <= k < |usages| ==> usages[k].kind != VideoUsageType
  {
    var r := VideoPageUsages(usages);
    if |r| != 0 {
      assert r[0] in r;
    }
    if exists k :: 0 <= k < |usages| && usages[k].kind == VideoUsageType {
      var k :| 0 <= k < |usages| && usages[k].kind == VideoUsageType;
      assert usages[k] in usages;
    }
  }

  /** The video held in the store, of which only the id is read here. */
  datatype Video = Video(id: string)

  datatype Page = Loading | Showing(video: Video)

  /** The guard at the head of `render`: the stored video is shown only when
      it is the one the route asks for. */
  function RenderVideo(video: Option<Video>, routeId: string): (p: Page)
    ensures p.Showing? <==> video.Some? && video.value.id == routeId
    ensures p.Showing? ==> p.video == video.value && p.video.id == routeId
  {
    if video.Some? && routeId == video.value.id then Showing(video.value) else Loading
  }

  /** The button `renderEditButton(property)` draws: "done" while the form is
      open, "edit" otherwise, each with its disabled state. */
  datatype EditButton = DoneButton(disabled: bool) | EditButton(disabled: bool)

  function EditButtonFor(es: EditState, formErrors: FormErrors, property: string): (b: EditButton)
    ensures b.DoneButton? <==> Flag(es, property)
    ensures b.DoneButton? ==> (b.disabled <==> CannotCloseEditForm(formErrors, property))
    ensures b.EditButton? ==> (b.disabled <==> Flag(es, MetadataEditable) || Flag(es, YoutubeEditable))
  {
    if Flag(es, property) then DoneButton(CannotCloseEditForm(formErrors, property))
    else EditButton(CannotOpenEditForm(Some(es)))
  }

  /** At most one of the two forms is open. */
  predicate AtMostOneOpen(es: EditState) {
    !(Flag(es, MetadataEditable) && Flag(es, YoutubeEditable))
  }

  /** Clicking an enabled edit button of either form keeps at most one form
      open; an "edit" click opens exactly that form, and a "done" click with
      no field errors closes it and saves the video. */
  lemma EnabledClickKeepsOneOpen(es: EditState, formErrors: FormErrors, property: string)
    requires property == MetadataEditable || property == YoutubeEditable
    requires AtMostOneOpen(es)
    requires !EditButtonFor(es, formErrors, property).disabled
    ensures AtMostOneOpen(ManageEditingState(es, property).editState)
    ensures EditButtonFor(es, formErrors, property).EditButton? ==>
              && Flag(ManageEditingState(es, property).editState, property)
              && !ManageEditingState(es, property).savesVideo
    ensures EditButtonFor(es, formErrors, property).DoneButton? ==>
              && !Flag(ManageEditingState(es, property).editState, MetadataEditable)
              && !Flag(ManageEditingState(es, property).editState, YoutubeEditable)
              && ManageEditingState(es, property).savesVideo
  {
  }
}
