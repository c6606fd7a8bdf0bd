/** `ObservableMixin` (`l4_core/utils.py`): an object whose attribute
    assignments may notify attached observers. Attributes are a name-to-value
    dictionary; an observer's `update(observable, attr, value)` call is recorded
    in the order it is made. */
module Observable {
  import Outcomes

  /** The attribute name Python actually stores the observer set under:
      `self.__observers` inside the class body is name-mangled. */
  const MANGLED_OBSERVERS: string := "_ObservableMixin__observers"

  /** The attribute name the notification guard asks `hasattr` about. A string
      literal is not mangled, so this is a different attribute. */
  const GUARD_ATTRIBUTE: string := "__observers"

  /** One `observer.update(observable=self, attr=key, value=value)` call. */
  datatype Notification<O, V> = Notification(observer: O, attr: string, value: V)

  class ObservableObject<O(==), V> {
    /** `_observed_attrs`. */
    const observedAttrs: seq<string>
    /** Every other attribute, by name. */
    var attrs: map<string, V>
    /** The attached observers, stored under `MANGLED_OBSERVERS`. */
    var observers: set<O>
    /** The `update` calls made so far. */
    var sent: seq<Notification<O, V>>

    /** `__init__`: an empty observer set. */
    constructor (observedAttrs: seq<string>)
      ensures this.observedAttrs == observedAttrs
      ensures attrs == map[] && observers == {} && sent == []
    {
      this.observedAttrs := observedAttrs;
      attrs := map[];
      observers := {};
      sent := [];
    }

    /** `hasattr(self, name)`. */
    predicate HasAttr(name: string)
      reads this
    {
      name == MANGLED_OBSERVERS || name in attrs
    }

    /** The condition of `__setattr__`'s notification branch, checked after the
        value is stored. */
    predicate Notifies(key: string)
      reads this
    {
      key in observedAttrs && HasAttr(GUARD_ATTRIBUTE)
    }

    /** `attach(observer)`: set insertion. */
    method Attach(o: O)
      modifies this
      ensures observers == old(observers) + {o}
      ensures attrs == old(attrs) && sent == old(sent)
    {
      observers := observers + {o};
    }

    /** `detach(observer)`: set removal, a KeyError for an observer not attached. */
    method Detach(o: O) returns (err: Outcomes.Option<Outcomes.Error>)
      modifies this
      ensures o in old(observers) ==> err == Outcomes.None && observers == old(observers) - {o}
      ensures o !in old(observers) ==> err == Outcomes.Some(Outcomes.ObserverNotAttached) && observers == old(observers)
      ensures attrs == old(attrs) && sent == old(sent)
    {
      if o in observers {
        observers := observers - {o};
        err := Outcomes.None;
      } else {
        err := Outcomes.Some(Outcomes.ObserverNotAttached);
      }
    }

    /** `__setattr__(key, value)`: the value is stored first; then, when the key is
        observed and the guard attribute exists, every attached observer is told
        once, in the set's iteration order. */
    method SetAttr(key: string, value: V)
      modifies this
      ensures attrs == old(attrs)[key := value] && observers == old(observers)
      ensures !Notifies(key) ==> sent == old(sent)
      ensures Notifies(key) ==>
        |sent| == |old(sent)| + |observers| && sent[..|old(sent)|] == old(sent) &&
        (forall n :: n in sent[|old(sent)|..] <==> n.observer in observers && n.attr == key && n.value == value) &&
        (forall i, j :: |old(sent)| <= i < j < |sent| ==> sent[i] != sent[j])
    {
      attrs := attrs[key := value];
      if key in observedAttrs && HasAttr(GUARD_ATTRIBUTE) {
        var added: seq<Notification<O, V>> := [];
        var todo := observers;
        while todo != {}
          invariant todo <= observers
          invariant |added| + |todo| == |observers|
          invariant forall n :: n in added <==> n.observer in observers - todo && n.attr == key && n.value == value
          invariant forall i, j :: 0 <= i < j < |added| ==> added[i] != added[j]
          decreases todo
        {
          var o :| o in todo;
          added := added + [Notification(o, key, value)];
          todo := todo - {o};
        }
        sent := sent + added;
      }
    }

    /** Attaching the same observer twice is attaching it once. */
    method AttachTwice(o: O)
      modifies this
      ensures observers == old(observers) + {o}
    {
      Attach(o);
      Attach(o);
    }
  }

  /** As written, only an attribute literally named `__observers` (which nothing
      in the mixin creates) opens the notification branch: assigning an observed
      attribute of an object without one notifies nobody. */
  method ObservedAssignmentIsSilent<O(==), V>(obj: ObservableObject<O, V>, key: string, value: V)
    modifies obj
    requires GUARD_ATTRIBUTE !in obj.attrs && key != GUARD_ATTRIBUTE
    ensures obj.sent == old(obj.sent)
    ensures obj.attrs == old(obj.attrs)[key := value]
  {
    obj.SetAttr(key, value);
  }
}
