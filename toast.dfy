/**
 * The notification list of components/Toast.tsx: `addToast` appends a toast
 * whose id is the current time in milliseconds and schedules its removal
 * when the duration is non-zero; `removeToast` filters out every toast with
 * the id; `useToast` fails outside a provider.
 */
module Toasts {
  import opened Wrappers
  import opened Text

  datatype ToastType = SuccessToast | ErrorToast | InfoToast | WarningToast

  datatype Toast = Toast(id: string, message: string, kind: ToastType, duration: int)

  /** A pending `setTimeout(() => removeToast(id), delay)`. */
  datatype Timer = Timer(id: string, delay: int)

  const DefaultDuration: int := 3000

  /** The id of a toast added at time `now`: `Date.now().toString()`. */
  function ToastId(now: nat): string
  {
    IntToString(now)
  }

  /** The toast `addToast(message, kind, duration)` creates; an omitted duration is 3000. */
  function NewToast(message: string, kind: ToastType, duration: Option<int>, now: nat): (t: Toast)
    ensures t.id == ToastId(now) && t.message == message && t.kind == kind
    ensures t.duration == (if duration.Some? then duration.value else 3000)
  {
    Toast(ToastId(now), message, kind, duration.GetOr(DefaultDuration))
  }

  /** `toasts.filter(t => t.id !== id)`. */
  function Remove(toasts: seq<Toast>, id: string): (r: seq<Toast>)
    ensures |r| <= |toasts|
    ensures forall t :: t in r <==> t in toasts && t.id != id
  {
    if toasts == [] then []
    else if toasts[0].id == id then Remove(toasts[1..], id)
    else [toasts[0]] + Remove(toasts[1..], id)
  }

  /** Removal works piecewise, so the toasts that stay keep their order. */
  lemma {:induction false} RemoveAppend(a: seq<Toast>, b: seq<Toast>, id: string)
    ensures Remove(a + b, id) == Remove(a, id) + Remove(b, id)
  {
    if a == [] {
      assert a + b == b;
    } else {
      assert (a + b)[0] == a[0];
      assert (a + b)[1..] == a[1..] + b;
      RemoveAppend(a[1..], b, id);
    }
  }

  /** A list without the id is left exactly as it was. */
  lemma {:induction false} RemoveAbsent(toasts: seq<Toast>, id: string)
    requires forall i :: 0 <= i < |toasts| ==> toasts[i].id != id
    ensures Remove(toasts, id) == toasts
  {
    if toasts != [] {
      RemoveAbsent(toasts[1..], id);
    }
  }

  /** Removing twice removes nothing more. */
  lemma RemoveIdempotent(toasts: seq<Toast>, id: string)
    ensures Remove(Remove(toasts, id), id) == Remove(toasts, id)
  {
    var r := Remove(toasts, id);
    assert forall i :: 0 <= i < |r| ==> r[i] in r;
    RemoveAbsent(r, id);
  }

  /** Toasts with other ids survive; the removal of one id never touches them. */
  lemma RemoveKeepsOthers(toasts: seq<Toast>, id: string, t: Toast)
    requires t.id != id
    ensures Remove(toasts + [t], id) == Remove(toasts, id) + [t]
  {
    RemoveAppend(toasts, [t], id);
    assert [t][1..] == [];
  }

  /**
   * Two toasts added in the same millisecond share their id, so the removal
   * scheduled for either takes both away.
   */
  lemma SameMillisecondCollision(toasts: seq<Toast>, m1: string, k1: ToastType, d1: Option<int>,
                                 m2: string, k2: ToastType, d2: Option<int>, now: nat)
    ensures var t1 := NewToast(m1, k1, d1, now);
            var t2 := NewToast(m2, k2, d2, now);
            t1.id == t2.id && Remove(toasts + [t1] + [t2], t1.id) == Remove(toasts, t1.id)
  {
    var t1 := NewToast(m1, k1, d1, now);
    var t2 := NewToast(m2, k2, d2, now);
    RemoveAppend(toasts + [t1], [t2], t1.id);
    RemoveAppend(toasts, [t1], t1.id);
    assert [t1][1..] == [] && [t2][1..] == [];
  }

  /** Toasts added at different times have different ids, so removing one keeps the other. */
  lemma DistinctTimesSeparate(toasts: seq<Toast>, m1: string, k1: ToastType, d1: Option<int>,
                              m2: string, k2: ToastType, d2: Option<int>, t1: nat, t2: nat)
    requires t1 != t2
    ensures var a := NewToast(m1, k1, d1, t1);
            var b := NewToast(m2, k2, d2, t2);
            Remove(toasts + [a] + [b], a.id) == Remove(toasts, a.id) + [b]
  {
    var a := NewToast(m1, k1, d1, t1);
    var b := NewToast(m2, k2, d2, t2);
    if a.id == b.id {
      IntToStringInjective(t1, t2);
    }
    RemoveAppend(toasts + [a], [b], a.id);
    RemoveAppend(toasts, [a], a.id);
    assert [a][1..] == [] && [b][1..] == [];
  }

  /** The timers an add schedules: one for a truthy (non-zero) duration, none for 0. */
  function Scheduled(t: Toast): (r: seq<Timer>)
    ensures |r| <= 1
    ensures r != [] <==> t.duration != 0
    ensures r != [] ==> r[0].id == t.id && r[0].delay == t.duration
  {
    if t.duration != 0 then [Timer(t.id, t.duration)] else []
  }

  /** The state of a ToastProvider: its toast list and the removals it has scheduled. */
  class ToastCenter {
    var toasts: seq<Toast>
    var timers: seq<Timer>

    constructor()
      ensures toasts == [] && timers == []
    {
      toasts := [];
      timers := [];
    }

    /** addToast at time `now`. */
    method AddToast(message: string, kind: ToastType, duration: Option<int>, now: nat)
      modifies this
      ensures toasts == old(toasts) + [NewToast(message, kind, duration, now)]
      ensures timers == old(timers) + Scheduled(NewToast(message, kind, duration, now))
    {
      var t := Toast(ToastId(now), message, kind, duration.GetOr(DefaultDuration));
      toasts := toasts + [t];
      if t.duration != 0 {
        timers := timers + [Timer(t.id, t.duration)];
      }
    }

    /** removeToast. */
    method RemoveToast(id: string)
      modifies this`toasts
      ensures toasts == Remove(old(toasts), id)
    {
      toasts := Remove(toasts, id);
    }

    /** A scheduled removal going off: the timer is consumed and its id removed. */
    method Fire(i: nat)
      requires i < |timers|
      modifies this
      ensures timers == old(timers[..i] + timers[i + 1..])
      ensures toasts == Remove(old(toasts), old(timers[i].id))
    {
      var id := timers[i].id;
      timers := timers[..i] + timers[i + 1..];
      RemoveToast(id);
    }
  }

  /** useToast: the context, or the error it throws outside a provider. */
  function UseToast<C>(context: Option<C>): (r: Result<C, string>)
    ensures context.Some? ==> r == Success(context.value)
    ensures context.None? ==> r == Failure("useToast must be used within ToastProvider")
  {
    match context
    case Some(c) => Success(c)
    case None => Failure("useToast must be used within ToastProvider")
  }
}
