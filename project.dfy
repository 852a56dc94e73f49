/**
 * `make_project` (instantiate.py:109-175): check the template, infer the
 * project number, name the destination, copy the template there and render
 * it with the project's variables.
 *
 * The working directory is its listing of `DirEntry`s; the template is the
 * tree `copytree` copies, so the destination holds the same tree and the
 * rendered paths are relative to the destination.
 */
module Project {
  import opened Results
  import opened Numbering
  import opened Glob
  import opened Walk

  /** A template variable: what YAML context files and the project record hold. */
  datatype Value =
    | Null
    | Int(i: int)
    | Str(s: string)
    | List(items: seq<Value>)
    | Dict(entries: map<string, Value>)

  type Variables = map<string, Value>

  /** Why `make_project` raised, in the order it checks. */
  datatype ProjectError =
    | TemplateMissing                   // ValueError: the template does not exist
    | NumberingFailed(cause: NumberError) // int('') on a width of 0
    | DestinationExists(name: string)   // copytree: FileExistsError
    | CopyFailed(sources: multiset<Path>) // copytree: shutil.Error, one entry per uncopyable source
    | RenderFailed(file: Path)          // the render callback raised

  /** The name of the new project directory: `number + "-" + name`, or `name` unnumbered. */
  function DestinationName(number: Option<string>, projectName: string): (d: string)
    ensures number.None? ==> d == projectName
    ensures number.Some? ==> |d| == |number.value| + 1 + |projectName| && d[..|number.value|] == number.value
    ensures number.Some? ==> d[|number.value|] == '-' && d[|number.value| + 1..] == projectName
  {
    if number.Some? then number.value + "-" + projectName else projectName
  }

  /** `{"number": project_number, "name": project_name}`; an absent number is `None`. */
  function ProjectRecord(number: Option<string>, projectName: string): (v: Value)
    ensures v.Dict? && v.entries.Keys == {"number", "name"}
    ensures v.entries["name"] == Str(projectName)
    ensures v.entries["number"] == if number.None? then Null else Str(number.value)
  {
    Dict(map["number" := if number.None? then Null else Str(number.value), "name" := Str(projectName)])
  }

  /**
   * The variables every file is rendered with: the caller's context under
   * `"context"` (empty when absent) and the project record under `"project"`.
   */
  function ProjectVariables(context: Option<map<string, Value>>, number: Option<string>, projectName: string): (vars: Variables)
    ensures vars.Keys == {"context", "project"}
    ensures vars["context"] == Dict(if context.None? then map[] else context.value)
    ensures vars["project"] == ProjectRecord(number, projectName)
  {
    map["context" := Dict(if context.None? then map[] else context.value),
        "project" := ProjectRecord(number, projectName)]
  }

  /** Whatever the context holds, even a `"project"` key of its own, it cannot change the project record. */
  lemma {:induction false} ContextCannotShadowProject(c1: Option<map<string, Value>>, c2: Option<map<string, Value>>,
                                   number: Option<string>, projectName: string)
    ensures ProjectVariables(c1, number, projectName)["project"] == ProjectVariables(c2, number, projectName)["project"]
    ensures ProjectVariables(c1, number, projectName).Keys == ProjectVariables(c2, number, projectName).Keys
  {
  }

  /** Unnumbered, the project's number is `None` (rendered as "None") and the destination is the bare name. */
  lemma {:induction false} UnnumberedProject(listing: seq<DirEntry>, context: Option<map<string, Value>>, projectName: string)
    ensures InferNextProjectNumber(listing, None) == Success(None)
    ensures DestinationName(None, projectName) == projectName
    ensures ProjectVariables(context, None, projectName)["project"].entries["number"] == Null
  {
  }

  /**
   * A numbered destination starts with the number, so a later run that uses
   * at most as many digits reads the number back from the directory name.
   */
  lemma {:induction false} DestinationQualifies(s: string, projectName: string, k: nat)
    requires AllDigits(s) && |s| >= k
    ensures Qualifies(DirEntry(DestinationName(Some(s), projectName), true), k)
    ensures PrefixValue(DirEntry(DestinationName(Some(s), projectName), true), k) == ParseDigits(s[..k])
  {
    var d := DestinationName(Some(s), projectName);
    assert d[..k] == s[..k];
    assert StartsWithKDigits(d, k) by {
      assert forall i :: 0 <= i < k ==> d[i] == s[i];
    }
  }

  /** Adding a qualifying directory adds its prefix to the numbers read, and nothing else. */
  lemma {:induction false} PrefixNumbersGrow(listing: seq<DirEntry>, e: DirEntry, k: nat)
    requires k >= 1 && Qualifies(e, k)
    ensures PrefixNumbers(listing, k).Success? && PrefixNumbers(listing + [e], k).Success?
    ensures forall v :: v in PrefixNumbers(listing + [e], k).value <==>
      v in PrefixNumbers(listing, k).value || v == PrefixValue(e, k)
  {
    var extended := listing + [e];
    var prior, grown := PrefixNumbers(listing, k).value, PrefixNumbers(extended, k).value;
    forall v
      ensures v in grown <==> v in prior || v == PrefixValue(e, k)
    {
      if v in prior {
        var i :| 0 <= i < |listing| && Qualifies(listing[i], k) && PrefixValue(listing[i], k) == v;
        assert extended[i] == listing[i];
      }
      if v == PrefixValue(e, k) {
        assert extended[|listing|] == e;
      }
      if v in grown {
        var i :| 0 <= i < |extended| && Qualifies(extended[i], k) && PrefixValue(extended[i], k) == v;
        if i < |listing| {
          assert extended[i] == listing[i];
        }
      }
    }
  }

  /**
   * The next number once a qualifying directory `e` is added: the larger of
   * the previous next number and one past `e`'s prefix.
   */
  lemma {:induction false} NextAfterAdding(listing: seq<DirEntry>, e: DirEntry, k: nat)
    requires k >= 1 && Qualifies(e, k)
    ensures PrefixNumbers(listing, k).Success? && PrefixNumbers(listing + [e], k).Success?
    ensures var before := NextNumber(PrefixNumbers(listing, k).value);
      var after := NextNumber(PrefixNumbers(listing + [e], k).value);
      after == if before > PrefixValue(e, k) + 1 then before else PrefixValue(e, k) + 1
  {
    PrefixNumbersGrow(listing, e, k);
    var prior, grown := PrefixNumbers(listing, k).value, PrefixNumbers(listing + [e], k).value;
    var pe := PrefixValue(e, k);
    var before, after := NextNumber(prior), NextNumber(grown);
    assert pe in grown;
    var ia :| 0 <= ia < |grown| && grown[ia] == pe;
    if prior != [] {
      assert before - 1 in grown;
      var ib :| 0 <= ib < |grown| && grown[ib] == before - 1;
      if after - 1 in prior {
        var ic :| 0 <= ic < |prior| && prior[ic] == after - 1;
      }
    }
  }

  /**
   * Running again after creating a project with a `k`-digit number yields the
   * following number: the new directory now holds the largest prefix.
   */
  lemma {:induction false} NumberingAdvances(listing: seq<DirEntry>, k: nat, projectName: string)
    requires k >= 1
    requires |InferNextProjectNumber(listing, Some(k)).value.value| == k
    ensures var s := InferNextProjectNumber(listing, Some(k)).value.value;
      var created := DirEntry(DestinationName(Some(s), projectName), true);
      InferNextProjectNumber(listing + [created], Some(k)) == Success(Some(Format(ParseDigits(s) + 1, k)))
  {
    NextAtMostPow10(listing, k);
    var s := InferNextProjectNumber(listing, Some(k)).value.value;
    assert s == Format(NextNumber(PrefixNumbers(listing, k).value), k);
    var created := DirEntry(DestinationName(Some(s), projectName), true);
    DestinationQualifies(s, projectName, k);
    assert s[..k] == s;
    NextAfterAdding(listing, created, k);
  }

  /**
   * Once the number has outgrown `k` digits (10^k), the new directory's first
   * `k` digits are smaller than the largest prefix, so the next run infers the
   * same number again.
   */
  lemma {:induction false} NumberingStallsAfterOverflow(listing: seq<DirEntry>, k: nat, projectName: string)
    requires k >= 1
    requires |InferNextProjectNumber(listing, Some(k)).value.value| > k
    ensures var s := InferNextProjectNumber(listing, Some(k)).value.value;
      var created := DirEntry(DestinationName(Some(s), projectName), true);
      InferNextProjectNumber(listing + [created], Some(k)) == InferNextProjectNumber(listing, Some(k))
  {
    Width(listing, k);
    var s := InferNextProjectNumber(listing, Some(k)).value.value;
    var created := DirEntry(DestinationName(Some(s), projectName), true);
    DestinationQualifies(s, projectName, k);
    NextAfterAdding(listing, created, k);
    assert ParseDigits(s) == Pow10(k);
  }

  /** In an empty directory, project `foo` with three digits goes to `001-foo`. */
  lemma {:induction false} FirstProjectExample()
    ensures InferNextProjectNumber([], Some(3)) == Success(Some("001"))
    ensures DestinationName(Some("001"), "foo") == "001-foo"
  {
    FirstNumberExample();
  }

  /**
   * `cwd / name` is the working directory itself or its parent: pathlib drops
   * an empty or `.` component, and `..` climbs one level.
   */
  predicate SelfOrParent(name: string) {
    name == "" || name == "." || name == ".."
  }

  /**
   * `cwd / name` already exists, so `copytree` raises `FileExistsError`: the
   * name is that of the directory itself or its parent, or some entry of the
   * working directory already has it.
   */
  predicate NameTaken(cwd: seq<DirEntry>, name: string) {
    SelfOrParent(name) || exists i :: 0 <= i < |cwd| && cwd[i].name == name
  }

  /**
   * Unnumbered, a project named `""`, `.` or `..` always collides, whatever
   * the working directory holds; a numbered destination never is one of these
   * names, so only real entries can collide with it.
   */
  lemma {:induction false} SelfOrParentCollides(cwd: seq<DirEntry>, number: Option<string>, projectName: string)
    ensures number.None? && SelfOrParent(projectName) ==> NameTaken(cwd, DestinationName(number, projectName))
    ensures number.Some? ==>
      (NameTaken(cwd, DestinationName(number, projectName)) <==>
       exists i :: 0 <= i < |cwd| && cwd[i].name == DestinationName(number, projectName))
  {
  }

  /**
   * How copying `template` and rendering the copy can end. If some entry
   * cannot be copied, the copy fails listing those entries and nothing is
   * rendered. Otherwise either every target was rendered successfully, or
   * the walk stopped at the first target whose rendering raised. When
   * sibling names are distinct, no file is rendered twice.
   */
  ghost predicate CopyOutcome(template: seq<Entry>, variables: Variables, noReplace: Option<seq<string>>,
                              render: (Path, Variables) -> bool, rendered: seq<Path>, error: Option<ProjectError>)
  {
    var failures := Uncopyable(template, []);
    var targets := Targets(template, [], Skipper(noReplace));
    (failures != multiset{} ==> error == Some(CopyFailed(failures)) && rendered == []) &&
    (failures == multiset{} && error.None? ==>
      multiset(rendered) == targets && Succeeded(rendered, |rendered|, variables, render)) &&
    (failures == multiset{} && error.Some? ==>
      error.value.RenderFailed? && rendered != [] && rendered[|rendered| - 1] == error.value.file &&
      error.value.file in targets && !render(error.value.file, variables) &&
      Succeeded(rendered, |rendered| - 1, variables, render)) &&
    (UniqueNames(template) ==> NoDuplicates(rendered))
  }

  /**
   * `shutil.copytree(template_dir, dst_dir)` then `replace(dst_dir, ...)`,
   * once the destination is known to be free. A copy failure leaves the
   * partial copy in place and renders nothing; a render failure leaves the
   * copy in place.
   */
  method CopyAndRender(template: seq<Entry>, variables: Variables,
                       noReplace: Option<seq<string>>, render: (Path, Variables) -> bool)
    returns (rendered: seq<Path>, error: Option<ProjectError>)
    ensures CopyOutcome(template, variables, noReplace, render, rendered, error)
  {
    var failures := Uncopyable(template, []);
    if failures != multiset{} {
      return [], Some(CopyFailed(failures));
    }
    var failed;
    rendered, failed := Replace(template, variables, noReplace, render);
    error := if failed.Some? then Some(RenderFailed(failed.value)) else None;
  }

  /**
   * `make_project(cwd, template_dir, project_name, context, numbering,
   * no_replace, render)`.
   *
   * `template` is `None` when the template directory does not exist. Once
   * the destination is free, `destination` is the directory created in `cwd`
   * and `rendered` the files rendered in it, as `CopyAndRender` states. Each
   * failure before the copy creates nothing and renders nothing.
   */
  method MakeProject(cwd: seq<DirEntry>, template: Option<seq<Entry>>, projectName: string,
                     context: Option<map<string, Value>>, numbering: Option<nat>,
                     noReplace: Option<seq<string>>, render: (Path, Variables) -> bool)
    returns (destination: Option<string>, rendered: seq<Path>, error: Option<ProjectError>)
    ensures template.None? ==> error == Some(TemplateMissing)
    ensures template.Some? && InferNextProjectNumber(cwd, numbering).Failure? ==>
      error == Some(NumberingFailed(InferNextProjectNumber(cwd, numbering).error))
    ensures template.Some? && InferNextProjectNumber(cwd, numbering).Success? ==>
      var number := InferNextProjectNumber(cwd, numbering).value;
      var dst := DestinationName(number, projectName);
      var variables := ProjectVariables(context, number, projectName);
      (NameTaken(cwd, dst) ==> error == Some(DestinationExists(dst))) &&
      (!NameTaken(cwd, dst) ==>
        destination == Some(dst) && CopyOutcome(template.value, variables, noReplace, render, rendered, error))
    ensures destination.None? <==> error.Some? && !error.value.RenderFailed? && !error.value.CopyFailed?
    ensures destination.None? ==> rendered == []
  {
    if template.None? {
      return None, [], Some(TemplateMissing);
    }
    var inferred := InferNextProjectNumber(cwd, numbering);
    if inferred.Failure? {
      return None, [], Some(NumberingFailed(inferred.error));
    }
    var number := inferred.value;
    var dst := DestinationName(number, projectName);
    if NameTaken(cwd, dst) {
      return None, [], Some(DestinationExists(dst));
    }
    var variables := ProjectVariables(context, number, projectName);
    destination := Some(dst);
    rendered, error := CopyAndRender(template.value, variables, noReplace, render);
  }
}
