/**
 * The selection bar: shown only for a non-empty selection, it offers Delete,
 * Activate and Deactivate, and runs the batch status mutation. The request
 * itself is abstract; what is modelled is what the bar sends and what it does
 * with each way the request can end.
 */
module SelectionBarView {
  import opened Types
  import opened Text

  /** The body POSTed to the status endpoint: `{ ids, status }`. */
  datatype StatusMutationPayload = StatusMutationPayload(ids: seq<string>, status: EmployeeStatus)

  /** The decoded response body `{ success }`. */
  datatype StatusMutationResponse = StatusMutationResponse(success: bool)

  /** How the request ended: a decoded response, or a rejected fetch or undecodable body. */
  datatype MutationResult = Responded(response: StatusMutationResponse) | Rejected

  /** A `message.success` or `message.error` notification. */
  datatype Toast = SuccessToast(text: string) | ErrorToast(text: string)

  /** The mutation's life cycle; `isMutatingStatus` is `InFlight?`. */
  datatype Phase = Idle | InFlight(payload: StatusMutationPayload) | Succeeded | Failed

  /** What the bar renders: nothing, or the count and the three buttons. */
  datatype BarView = Hidden | Bar(count: nat, statusActionsLoading: bool)

  /** What `onSuccess` / `onError` do: the notification and whether `['employees']` is invalidated. */
  datatype Effects = Effects(toast: Toast, invalidateEmployees: bool)

  const ConnectionErrorText: string := "Uh oh, something is wrong! Check your internet connection and try again"

  function Verb(status: EmployeeStatus): string
  {
    if status == Active then "activated" else "deactivated"
  }

  /** The success notification: "Successfully <verb> <count> employees". */
  function SuccessText(status: EmployeeStatus, count: nat): string
  {
    "Successfully " + Verb(status) + " " + NatToString(count) + " employees"
  }

  /** The bar's heading: "<count> employees selected". */
  function SelectedLabel(count: nat): string
  {
    NatToString(count) + " employees selected"
  }

  /** The success notification names the action taken and the count, and nothing else can produce it. */
  lemma SuccessTextDeterminesActionAndCount(s1: EmployeeStatus, n1: nat, s2: EmployeeStatus, n2: nat)
    requires SuccessText(s1, n1) == SuccessText(s2, n2)
    ensures s1 == s2 && n1 == n2
  {
    var t1, t2 := SuccessText(s1, n1), SuccessText(s2, n2);
    assert t1[13] == Verb(s1)[0] && t2[13] == Verb(s2)[0];
    var prefix := "Successfully " + Verb(s1) + " ";
    var d1, d2 := NatToString(n1), NatToString(n2);
    assert t1 == prefix + d1 + " employees";
    assert t2 == prefix + d2 + " employees";
    assert t1[|prefix|..|prefix| + |d1|] == d1;
    assert t2[|prefix|..|prefix| + |d2|] == d2;
    NatToStringInjective(n1, n2);
  }

  /** The text the selection bar's tests look for after activating two employees. */
  lemma ActivatedTwoText()
    ensures SuccessText(Active, 2) == "Successfully activated 2 employees"
    ensures SelectedLabel(2) == "2 employees selected"
  {
    assert NatToString(2) == "2";
  }

  /** The render-time decision: nothing for an empty selection, else the count and the loading flag. */
  function RenderBar(checkedEmployees: seq<string>, isMutatingStatus: bool): (v: BarView)
    ensures v.Hidden? <==> |checkedEmployees| == 0
    ensures v.Bar? ==> v.count == |checkedEmployees| && v.statusActionsLoading == isMutatingStatus
  {
    if |checkedEmployees| == 0 then Hidden else Bar(|checkedEmployees|, isMutatingStatus)
  }

  /**
   * `onSuccess` and `onError`: only a response with `success == true` gives the
   * success notification and invalidates the employee list; a `success == false`
   * response and a failed request both give the same connection error.
   */
  function OnSettled(payload: StatusMutationPayload, count: nat, result: MutationResult): (fx: Effects)
    ensures fx.invalidateEmployees <==> result == Responded(StatusMutationResponse(true))
    ensures fx.invalidateEmployees <==> fx.toast.SuccessToast?
    ensures fx.toast.SuccessToast? ==> fx.toast.text == SuccessText(payload.status, count)
    ensures fx.toast.ErrorToast? ==> fx.toast.text == ConnectionErrorText
  {
    match result
    case Responded(data) =>
      if data.success then Effects(SuccessToast(SuccessText(payload.status, count)), true)
      else Effects(ErrorToast(ConnectionErrorText), false)
    case Rejected => Effects(ErrorToast(ConnectionErrorText), false)
  }

  /** How many success notifications a history holds. */
  function SuccessCount(toasts: seq<Toast>): (n: nat)
    ensures n <= |toasts|
  {
    if toasts == [] then 0
    else SuccessCount(toasts[..|toasts| - 1]) + (if toasts[|toasts| - 1].SuccessToast? then 1 else 0)
  }

  lemma SuccessCountSnoc(toasts: seq<Toast>, t: Toast)
    ensures SuccessCount(toasts + [t]) == SuccessCount(toasts) + (if t.SuccessToast? then 1 else 0)
  {
    assert (toasts + [t])[..|toasts|] == toasts;
  }

  /**
   * One mounted selection bar with its status mutation. `toasts` is every
   * notification shown so far, `employeesInvalidations` the number of
   * `invalidateQueries(['employees'])` calls, `deleteRequests` the number of
   * `onDelete` calls.
   */
  class SelectionBar {
    var checkedEmployees: seq<string>
    var phase: Phase
    var toasts: seq<Toast>
    var employeesInvalidations: nat
    var deleteRequests: nat

    /** The list is invalidated exactly once per success notification. */
    ghost predicate Valid()
      reads this
    {
      employeesInvalidations == SuccessCount(toasts)
    }

    constructor (checkedEmployees: seq<string>)
      ensures Valid()
      ensures this.checkedEmployees == checkedEmployees && phase == Idle
      ensures toasts == [] && employeesInvalidations == 0 && deleteRequests == 0
    {
      this.checkedEmployees := checkedEmployees;
      phase := Idle;
      toasts := [];
      employeesInvalidations := 0;
      deleteRequests := 0;
    }

    function View(): (v: BarView)
      reads this
      ensures v.Hidden? <==> |checkedEmployees| == 0
      ensures v.Bar? ==> v.count == |checkedEmployees| && (v.statusActionsLoading <==> phase.InFlight?)
    {
      RenderBar(checkedEmployees, phase.InFlight?)
    }

    /** The parent re-renders the bar with a new selection; the mutation state is kept. */
    method SetCheckedEmployees(keys: seq<string>)
      modifies this`checkedEmployees
      ensures checkedEmployees == keys
    {
      checkedEmployees := keys;
    }

    /**
     * A click on Activate (`status == Active`) or Deactivate: it reaches the
     * handler only when the bar is shown and the buttons are not loading, and
     * then starts the mutation with the current selection.
     */
    method ClickStatusAction(status: EmployeeStatus) returns (fired: bool)
      requires Valid()
      modifies this`phase
      ensures Valid()
      ensures fired <==> View().Bar? && !old(phase).InFlight?
      ensures phase == if fired then InFlight(StatusMutationPayload(checkedEmployees, status)) else old(phase)
    {
      fired := |checkedEmployees| > 0 && !phase.InFlight?;
      if fired {
        phase := InFlight(StatusMutationPayload(checkedEmployees, status));
      }
    }

    /** `handleActivateBatch`. */
    method ClickActivate() returns (fired: bool)
      requires Valid()
      modifies this`phase
      ensures Valid()
      ensures fired <==> View().Bar? && !old(phase).InFlight?
      ensures phase == if fired then InFlight(StatusMutationPayload(checkedEmployees, Active)) else old(phase)
    {
      fired := ClickStatusAction(Active);
    }

    /** `handleDeactivateBatch`. */
    method ClickDeactivate() returns (fired: bool)
      requires Valid()
      modifies this`phase
      ensures Valid()
      ensures fired <==> View().Bar? && !old(phase).InFlight?
      ensures phase == if fired then InFlight(StatusMutationPayload(checkedEmployees, Inactive)) else old(phase)
    {
      fired := ClickStatusAction(Inactive);
    }

    /** A click on Delete: emits `onDelete` whenever the bar is shown, in flight or not. */
    method ClickDelete() returns (emitted: bool)
      modifies this`deleteRequests
      ensures emitted <==> View().Bar?
      ensures deleteRequests == old(deleteRequests) + (if emitted then 1 else 0)
    {
      emitted := |checkedEmployees| > 0;
      if emitted {
        deleteRequests := deleteRequests + 1;
      }
    }

    /**
     * The in-flight request ends. The callbacks are the ones current when the
     * request was made, so the count they report is that of the ids sent.
     * Nothing is retried: the mutation ends succeeded or failed.
     */
    method Settle(result: MutationResult)
      requires Valid() && phase.InFlight?
      modifies this`phase, this`toasts, this`employeesInvalidations
      ensures Valid()
      ensures var fx := OnSettled(old(phase).payload, |old(phase).payload.ids|, result);
        && toasts == old(toasts) + [fx.toast]
        && employeesInvalidations == old(employeesInvalidations) + (if fx.invalidateEmployees then 1 else 0)
        && phase == (if fx.invalidateEmployees then Succeeded else Failed)
    {
      var payload := phase.payload;
      var fx := OnSettled(payload, |payload.ids|, result);
      SuccessCountSnoc(toasts, fx.toast);
      toasts := toasts + [fx.toast];
      if fx.invalidateEmployees {
        employeesInvalidations := employeesInvalidations + 1;
        phase := Succeeded;
      } else {
        phase := Failed;
      }
    }
  }

  /**
   * Two employees selected, Activate clicked, the server answers success:
   * "Successfully activated 2 employees" is shown and the list is invalidated once.
   */
  method ActivateTwoEmployees() returns (shown: seq<Toast>, invalidations: nat)
    ensures shown == [SuccessToast("Successfully activated 2 employees")]
    ensures invalidations == 1
  {
    var bar := new SelectionBar(["1", "2"]);
    var fired := bar.ClickActivate();
    assert bar.phase == InFlight(StatusMutationPayload(["1", "2"], Active));
    bar.Settle(Responded(StatusMutationResponse(true)));
    ActivatedTwoText();
    shown, invalidations := bar.toasts, bar.employeesInvalidations;
  }

  /**
   * Deactivate is clicked and Activate is clicked while the request is in
   * flight; the request fails. The second click is ignored, the connection
   * error is shown and nothing is invalidated; the buttons work again
   * afterwards, and only a new click sends a new request.
   */
  method DeactivateFailsThenRetriedByHand()
    returns (secondClickFired: bool, phaseAfterSecondClick: Phase, afterFailure: Phase,
             shown: seq<Toast>, invalidations: nat, retried: bool, phase: Phase)
    ensures !secondClickFired
    ensures phaseAfterSecondClick == InFlight(StatusMutationPayload(["1"], Inactive))
    ensures afterFailure == Failed
    ensures shown == [ErrorToast(ConnectionErrorText)]
    ensures invalidations == 0
    ensures retried
    ensures phase == InFlight(StatusMutationPayload(["1"], Inactive))
  {
    var bar := new SelectionBar(["1"]);
    var fired := bar.ClickDeactivate();
    secondClickFired := bar.ClickActivate();
    phaseAfterSecondClick := bar.phase;
    bar.Settle(Rejected);
    afterFailure := bar.phase;
    retried := bar.ClickDeactivate();
    shown, invalidations, phase := bar.toasts, bar.employeesInvalidations, bar.phase;
  }
}
