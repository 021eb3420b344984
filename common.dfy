/** Values shared by both package generations: the outcome of an operation that may
    raise, the task status enum, and the user callables that tasks wrap. */
module Common {

  datatype Option<+T> = None | Some(value: T)

  /** The Python exceptions the modelled code can raise. */
  datatype Exception =
    | KeyError        // a dict lookup on a missing key
    | IndexError      // a list index out of range
    | ValueError      // list.index of a missing element, or strptime of a bad date
    | AttributeError  // `.group` on the None returned by a failed re.search
    | NetworkXError   // a networkx traversal from a node absent from the graph
    | NodeNotFound    // networkx.shortest_path to a node absent from the graph
    | NoPath          // networkx.shortest_path to an unreachable node

  /** Either the value an operation returns or the exception it raises. */
  datatype Result<+T> = Ok(value: T) | Raised(exc: Exception)

  /** Status of a task, as read by the parent-status check. */
  datatype Status = Pending | Success | Error

  /** A user function, identified by its `__module__` and `__name__`. */
  datatype Callable = Callable(moduleName: string, funcName: string)

  /** What a DAG reads from a task: its name, its dependencies and its status. */
  datatype TaskView = TaskView(name: string, dependsOn: seq<Callable>, status: Status)

  /** `[t.name for t in tasks]`. */
  function TaskNames(tasks: seq<TaskView>): (r: seq<string>)
    ensures |r| == |tasks| && forall i :: 0 <= i < |tasks| ==> r[i] == tasks[i].name
  {
    seq(|tasks|, i requires 0 <= i < |tasks| => tasks[i].name)
  }

  /** The fully qualified name `module.function` under which a task is known. */
  function QualifiedName(f: Callable): (r: string)
    ensures |r| == |f.moduleName| + 1 + |f.funcName|
  {
    f.moduleName + "." + f.funcName
  }

  /** `[f"{func.__module__}.{func.__name__}" for func in deps]`. */
  function QualifiedNames(deps: seq<Callable>): (r: seq<string>)
    ensures |r| == |deps|
  {
    if deps == [] then [] else QualifiedNames(deps[..|deps| - 1]) + [QualifiedName(deps[|deps| - 1])]
  }

  /** The i-th name is the qualified name of the i-th dependency, so the list keeps the
      declaration order and is empty exactly when there are no dependencies. */
  lemma {:induction false} QualifiedNamesAt(deps: seq<Callable>, i: nat)
    requires i < |deps|
    ensures QualifiedNames(deps)[i] == QualifiedName(deps[i])
    decreases |deps|
  {
    if i < |deps| - 1 {
      QualifiedNamesAt(deps[..|deps| - 1], i);
    }
  }

  /** No element occurs twice. */
  predicate Distinct<T(==)>(xs: seq<T>) {
    forall i, j :: 0 <= i < j < |xs| ==> xs[i] != xs[j]
  }

  /** The set of elements of a list, as Python's `set(xs)`. */
  function Elems<T(!new)>(xs: seq<T>): (r: set<T>)
    ensures forall x :: x in r <==> x in xs
  {
    set x | x in xs
  }

  /** The position of the first occurrence of x, as `list.index` finds it. */
  function FirstIndex<T(==)>(xs: seq<T>, x: T): (r: Option<nat>)
    ensures r.None? <==> x !in xs
    ensures r.Some? ==> r.value < |xs| && xs[r.value] == x && forall j :: 0 <= j < r.value ==> xs[j] != x
  {
    if xs == [] then None
    else if xs[0] == x then Some(0)
    else match FirstIndex(xs[1..], x)
      case None => None
      case Some(k) => Some(k + 1)
  }

  /** Python's `xs[j]`: a negative j counts from the end; out of range raises IndexError. */
  function PyIndex<T>(xs: seq<T>, j: int): (r: Result<T>)
    ensures r.Ok? <==> -|xs| <= j < |xs|
    ensures 0 <= j < |xs| ==> r == Ok(xs[j])
    ensures -|xs| <= j < 0 ==> r == Ok(xs[|xs| + j])
    ensures r.Raised? ==> r.exc == IndexError
  {
    if 0 <= j < |xs| then Ok(xs[j])
    else if -|xs| <= j < 0 then Ok(xs[|xs| + j])
    else Raised(IndexError)
  }
}
