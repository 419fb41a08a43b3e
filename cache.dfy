/**
 * `CacheMutex<T>`: a single-slot memo cell. The slot holds at most one value; `get` returns
 * it or computes, stores and returns a new one; `clear` empties it; `clone` gives a new,
 * independent cell holding the same value. The factory that computes a value is passed in
 * as the result it would return, and a ghost flag records whether `get` consulted it.
 */
module Cache {
  import opened Wrappers

  class CacheMutex<T> {
    /** The slot behind the mutex. */
    var slot: Option<T>

    /** `Default::default`: an empty cell. */
    constructor ()
      ensures slot == None
    {
      slot := None;
    }

    /** A cell whose slot starts out holding `value`. */
    constructor Holding(value: Option<T>)
      ensures slot == value
    {
      slot := value;
    }

    /**
     * A filled slot answers without consulting the factory and keeps its value. An empty
     * slot consults the factory once: success is stored and returned, an error is returned
     * and nothing is stored, so the next `get` asks again.
     */
    method Get<E>(factory: Result<T, E>) returns (r: Result<T, E>, ghost consulted: bool)
      modifies this
      ensures consulted <==> old(slot).None?
      ensures old(slot).Some? ==> r == Ok(old(slot).value) && slot == old(slot)
      ensures old(slot).None? ==> r == factory
      ensures old(slot).None? ==> slot == if factory.Ok? then Some(factory.value) else None
    {
      var taken := slot;
      slot := None;
      var value: T;
      match taken {
        case Some(v) =>
          value := v;
          consulted := false;
        case None =>
          consulted := true;
          if factory.Err? {
            r := Err(factory.error);
            return;
          }
          value := factory.value;
      }
      slot := Some(value);
      r := Ok(value);
    }

    /** Empties the slot, whatever it held. */
    method Clear()
      modifies this
      ensures slot == None
    {
      slot := None;
    }

    /** A new cell holding the value this one holds; this cell keeps its value. */
    method Clone() returns (c: CacheMutex<T>)
      modifies this
      ensures fresh(c) && c.slot == old(slot)
      ensures slot == old(slot)
    {
      var value := slot;
      slot := None;
      slot := value;
      c := new CacheMutex.Holding(value);
    }
  }

  /**
   * After `clone`, clearing either cell leaves the other as it was: the cleared cell
   * consults its factory on the next `get`, the other still answers with the old value
   * without consulting its own.
   */
  method CloneIsIndependent<T, E>(cache: CacheMutex<T>, factory: Result<T, E>, copyFactory: Result<T, E>)
    returns (copy: CacheMutex<T>, r: Result<T, E>, copyR: Result<T, E>, ghost consulted: bool, ghost copyConsulted: bool)
    modifies cache
    ensures fresh(copy)
    ensures consulted && r == factory
    ensures cache.slot == if factory.Ok? then Some(factory.value) else None
    ensures old(cache.slot).Some? ==> !copyConsulted && copyR == Ok(old(cache.slot).value) && copy.slot == old(cache.slot)
    ensures old(cache.slot).None? ==> copyConsulted && copyR == copyFactory
  {
    copy := cache.Clone();
    cache.Clear();
    r, consulted := cache.Get(factory);
    copyR, copyConsulted := copy.Get(copyFactory);
  }

  /** Clearing the copy leaves the original as it was. */
  method ClearCopyKeepsOriginal<T>(cache: CacheMutex<T>)
    returns (copy: CacheMutex<T>)
    modifies cache
    ensures fresh(copy) && copy.slot == None && cache.slot == old(cache.slot)
  {
    copy := cache.Clone();
    copy.Clear();
  }

  /**
   * The life of one cell: the first `get` computes `"Hello, World!"`; later calls, also after
   * a clone, return it without consulting a factory; after `clear` a new value is computed,
   * and the clone still holds the first one.
   */
  method HelloWorldScenario<E>(failing: Result<string, E>)
    returns (values: seq<Result<string, E>>, ghost consulted: seq<bool>)
    ensures values == [Ok("Hello, World!"), Ok("Hello, World!"), Ok("Hello, World!"),
                       Ok("Hi, Amigo!"), Ok("Hello, World!")]
    ensures consulted == [true, false, false, true, false]
  {
    var cache := new CacheMutex<string>();
    var v1, c1 := cache.Get(Ok("Hello, World!"));
    var v2, c2 := cache.Get(failing);
    var copy := cache.Clone();
    var v3, c3 := cache.Get(failing);
    cache.Clear();
    var v4, c4 := cache.Get(Ok("Hi, Amigo!"));
    var v5, c5 := copy.Get(failing);
    values := [v1, v2, v3, v4, v5];
    consulted := [c1, c2, c3, c4, c5];
  }

  /** A factory that fails leaves the slot empty, so the next `get` consults a factory again. */
  method FailureIsRetried<T, E>(e: E, v: T)
    returns (first: Result<T, E>, second: Result<T, E>, ghost retried: bool)
    ensures first == Err(e) && second == Ok(v) && retried
  {
    var cache := new CacheMutex<T>();
    ghost var c1;
    first, c1 := cache.Get(Err(e));
    second, retried := cache.Get(Ok(v));
  }
}
