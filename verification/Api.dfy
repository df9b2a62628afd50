/**
 * The API server. Every call may fail: `faults` decides the outcome of each call, so a statement
 * about all fault functions covers every sequence of failures.
 */
module Api {
  import opened Wrappers
  import opened DiskStatus
  import opened ReconcileSpec
  import StatusPatch

  datatype Fault = Fine | Conflict | Broken

  datatype ApiError = IsNotFound | IsConflict | OtherApiError

  datatype Item = Item(name: string, cr: Cr)

  /** What a call is about: one object, or all that have a label. */
  datatype Target = Named(name: string) | Labels

  /** All calls from `first` up to but not including `last` work. */
  ghost predicate AllWork(faults: nat -> Fault, first: nat, last: nat) {
    forall n: nat :: first <= n < last ==> faults(n) == Fine
  }

  lemma WorkSplit(faults: nat -> Fault, first: nat, middle: nat, last: nat)
    ensures AllWork(faults, first, last) && first <= middle <= last ==>
              AllWork(faults, first, middle) && AllWork(faults, middle, last)
  {
  }

  /** All logged calls from `first` on that are about this object have worked. */
  ghost predicate AllWorkFor(faults: nat -> Fault, log: seq<Target>, first: nat, name: string) {
    forall n: nat :: first <= n < |log| && log[n] == Named(name) ==> faults(n) == Fine
  }

  /** The API server as a direct client sees it, with no other writer during one call chain. The
      log lists the calls; `faults` decides the outcome of call number `n`. */
  class ApiServer {
    var objects: Objects
    var log: seq<Target>
    const faults: nat -> Fault

    constructor (objects: Objects, faults: nat -> Fault)
      ensures this.objects == objects && this.faults == faults && log == []
    {
      this.objects, this.faults, log := objects, faults, [];
    }

    /** All calls from `first` on have worked. */
    ghost predicate WorkedSince(first: nat)
      reads this`log
    {
      AllWork(faults, first, |log|)
    }

    method Call(target: Target) returns (r: Option<ApiError>)
      modifies this`log
      ensures log == old(log) + [target] && r != Some(IsNotFound)
      ensures WorkedSince(old(|log|)) <==> r.None?
      ensures faults(old(|log|)) == Conflict <==> r == Some(IsConflict)
      ensures faults(old(|log|)) == Broken <==> r == Some(OtherApiError)
    {
      var f := faults(|log|);
      log := log + [target];
      r := match f case Fine => None case Conflict => Some(IsConflict) case Broken => Some(OtherApiError);
    }

    method Get(name: string) returns (r: Result<Cr, ApiError>)
      modifies this`log
      ensures log == old(log) + [Named(name)]
      ensures r.Ok? ==> name in objects && r.value == objects[name]
      ensures r == Err(IsNotFound) ==> name !in objects
      ensures WorkedSince(old(|log|)) ==> r == if name in objects then Ok(objects[name]) else Err(IsNotFound)
      ensures faults(old(|log|)) == Broken ==> r == Err(OtherApiError)
    {
      var e := Call(Named(name));
      r := if e.Some? then Err(e.value) else if name in objects then Ok(objects[name]) else Err(IsNotFound);
    }

    method Create(name: string, cr: Cr) returns (r: Option<ApiError>)
      modifies this
      ensures log == old(log) + [Named(name)]
      ensures objects == if r.None? then old(objects)[name := cr.(status := NEW_STATUS)] else old(objects)
      ensures r.None? ==> name !in old(objects)
      ensures WorkedSince(old(|log|)) && name !in old(objects) ==> r.None?
    {
      r := Call(Named(name));
      if r.None? {
        if name in objects {
          r := Some(OtherApiError);
        } else {
          objects := objects[name := cr.(status := NEW_STATUS)];
        }
      }
    }

    method Delete(name: string) returns (r: Option<ApiError>)
      modifies this
      ensures log == old(log) + [Named(name)]
      ensures objects == if r.None? then old(objects) - {name} else old(objects)
      ensures r == Some(IsNotFound) ==> name !in objects
      ensures WorkedSince(old(|log|)) ==> r == if name in old(objects) then None else Some(IsNotFound)
    {
      r := Call(Named(name));
      if r.None? {
        if name in objects {
          objects := objects - {name};
        } else {
          r := Some(IsNotFound);
        }
      }
    }

    method PatchLabel(name: string, value: string) returns (r: Option<ApiError>)
      modifies this
      ensures log == old(log) + [Named(name)]
      ensures r.None? ==> name in old(objects) && objects == old(objects)[name := old(objects)[name].(nodeLabel := Some(value))]
      ensures r.Some? ==> objects == old(objects)
      ensures WorkedSince(old(|log|)) && name in old(objects) ==> r.None?
    {
      r := Call(Named(name));
      if r.None? {
        if name in objects {
          objects := objects[name := objects[name].(nodeLabel := Some(value))];
        } else {
          r := Some(IsNotFound);
        }
      }
    }

    /** A merge patch of the status computed from `base` and `modified`. */
    method PatchStatus(name: string, base: Status, modified: Status) returns (r: Option<ApiError>)
      modifies this
      ensures log == old(log) + [Named(name)]
      ensures r.None? ==>
                && name in old(objects)
                && objects == old(objects)[name := old(objects)[name].(
                                status := StatusPatch.Merged(old(objects)[name].status, base, modified))]
      ensures r.Some? ==> objects == old(objects)
      ensures WorkedSince(old(|log|)) && name in old(objects) ==> r.None?
    {
      r := Call(Named(name));
      if r.None? {
        if name in objects {
          objects := objects[name := objects[name].(status := StatusPatch.Merged(objects[name].status, base, modified))];
        } else {
          r := Some(IsNotFound);
        }
      }
    }

    /** An update of the status; a conflict is reported if somebody else wrote in between. */
    method UpdateStatus(name: string, status: Status) returns (r: Option<ApiError>)
      modifies this
      ensures log == old(log) + [Named(name)]
      ensures r.None? ==> name in old(objects) && objects == old(objects)[name := old(objects)[name].(status := status)]
      ensures r.Some? ==> objects == old(objects)
      ensures WorkedSince(old(|log|)) && name in old(objects) ==> r.None?
      ensures faults(old(|log|)) == Conflict ==> r == Some(IsConflict)
      ensures faults(old(|log|)) == Broken ==> r == Some(OtherApiError)
    {
      r := Call(Named(name));
      if r.None? {
        if name in objects {
          objects := objects[name := objects[name].(status := status)];
        } else {
          r := Some(IsNotFound);
        }
      }
    }

    /** The objects with this node label, in any order. */
    method List(value: string) returns (r: Result<seq<Item>, ApiError>)
      modifies this`log
      ensures log == old(log) + [Labels]
      ensures r.Ok? ==> Lists(objects, value, r.value)
      ensures WorkedSince(old(|log|)) ==> r.Ok?
    {
      var e := Call(Labels);
      if e.Some? {
        return Err(e.value);
      }
      var items: seq<Item> := [];
      var rest := objects.Keys;
      while rest != {}
        invariant rest <= objects.Keys
        invariant forall i :: 0 <= i < |items| ==> IsListed(objects, value, items[i]) && items[i].name !in rest
        invariant forall i, j :: 0 <= i < j < |items| ==> items[i].name != items[j].name
        invariant forall n :: n in objects && n !in rest && objects[n].nodeLabel == Some(value) ==> Item(n, objects[n]) in items
        decreases rest
      {
        var n :| n in rest;
        rest := rest - {n};
        if objects[n].nodeLabel == Some(value) {
          items := items + [Item(n, objects[n])];
        }
      }
      return Ok(items);
    }
  }

  predicate IsListed(objects: Objects, value: string, i: Item) {
    i.name in objects && objects[i.name] == i.cr && i.cr.nodeLabel == Some(value)
  }

  predicate Lists(objects: Objects, value: string, items: seq<Item>) {
    && (forall i :: 0 <= i < |items| ==> IsListed(objects, value, items[i]))
    && (forall i, j :: 0 <= i < j < |items| ==> items[i].name != items[j].name)
    && (forall n :: n in objects && objects[n].nodeLabel == Some(value) ==> Item(n, objects[n]) in items)
  }
}
