/** The path budget of a packaged runtime: no file and no directory of it may exceed the legacy
    Windows limits, for any user name and for both places it is installed to. */
module PathBudget {
  import opened Sequences

  // Paths are components under a drive; the length counts the drive, its colon and a separator
  // before every component.

  const FILE_LIMIT := 259
  const DIRECTORY_LIMIT := 247
  const USER_LIMIT := 20

  function Length(path: Path): nat {
    if path == [] then 2 else Length(path[..|path| - 1]) + 1 + |path[|path| - 1]|
  }

  function Runtimes(user: string): Path {
    ["Users", user, "AppData", "Local", "Programs", "DaHeLogisticsAutomationTool", "runtimes"]
  }

  datatype Package = CpuRuntime | GpuRuntime

  function Targets(package: Package, user: string): seq<Path> {
    match package
    case CpuRuntime => [Runtimes(user) + ["ocr-cpu"], Runtimes(user) + [".c-00000000"]]
    case GpuRuntime => [Runtimes(user), Runtimes(user) + [".g-00000000"]]
  }

  /** A file under a target, and every directory from the target down to it, are within limits. */
  predicate WithinBudget(target: Path, file: Path) {
    && Length(target + file) <= FILE_LIMIT
    && forall k :: |target| <= k < |target + file| ==> Length((target + file)[..k]) <= DIRECTORY_LIMIT
  }

  predicate AllWithin(package: Package, user: string, files: seq<Path>) {
    forall f, t :: 0 <= f < |files| && 0 <= t < |Targets(package, user)| ==> WithinBudget(Targets(package, user)[t], files[f])
  }

  /** The name the check projects for: the longest there is. */
  function LongestName(): string { seq(USER_LIMIT, _ => 'U') }

  // ---- The check ----

  /** The loop over the parents of one projected file: from its directory up, it stops at the
      directory above the target, and it always gets there. */
  method ParentsWithin(target: Path, projected: Path) returns (ok: bool)
    requires target != [] && target <= projected
    ensures ok <==> forall k :: |target| <= k < |projected| ==> Length(projected[..k]) <= DIRECTORY_LIMIT
  {
    var n := |projected|;
    while n > 0
      invariant |target| <= n <= |projected|
      invariant forall k :: n <= k < |projected| ==> Length(projected[..k]) <= DIRECTORY_LIMIT
    {
      var parent := projected[..n - 1];
      AboveTarget(target, projected);
      if parent == target[..|target| - 1] { break; }
      if Length(parent) > DIRECTORY_LIMIT { return false; }
      n := n - 1;
    }
    return true;
  }

  lemma AboveTarget(target: Path, projected: Path)
    requires target != [] && target <= projected
    ensures projected[..|target| - 1] == target[..|target| - 1]
  {
    assert target == projected[..|target|];
  }

  /** `_validate_cpu_runtime_legacy_path_budget` and its GPU twin. */
  method Validate(package: Package, files: seq<Path>) returns (ok: bool)
    ensures ok <==> AllWithin(package, LongestName(), files)
  {
    var targets := Targets(package, LongestName());
    for f := 0 to |files|
      invariant forall g, t :: 0 <= g < f && 0 <= t < |targets| ==> WithinBudget(targets[t], files[g])
    {
      for t := 0 to |targets|
        invariant forall u :: 0 <= u < t ==> WithinBudget(targets[u], files[f])
      {
        var projected := targets[t] + files[f];
        if Length(projected) > FILE_LIMIT {
          assert !WithinBudget(targets[t], files[f]);
          return false;
        }
        var parents := ParentsWithin(targets[t], projected);
        if !parents {
          assert !WithinBudget(targets[t], files[f]);
          return false;
        }
      }
    }
    return true;
  }

  // ---- What acceptance means ----

  /** The same components, none longer than its counterpart. */
  ghost predicate Shorter(p: Path, q: Path) { |p| == |q| && forall i :: 0 <= i < |p| ==> |p[i]| <= |q[i]| }

  lemma {:induction false} ShorterIsShorter(p: Path, q: Path)
    requires Shorter(p, q)
    ensures Length(p) <= Length(q)
  {
    if p != [] {
      ShorterIsShorter(p[..|p| - 1], q[..|q| - 1]);
    }
  }

  lemma ShorterWithin(target: Path, longer: Path, file: Path)
    requires Shorter(target, longer) && WithinBudget(longer, file)
    ensures WithinBudget(target, file)
  {
    ShorterIsShorter(target + file, longer + file);
    forall k | |target| <= k < |target + file| ensures Length((target + file)[..k]) <= DIRECTORY_LIMIT {
      ShorterIsShorter((target + file)[..k], (longer + file)[..k]);
    }
  }

  lemma TargetsShorter(package: Package, user: string, t: nat)
    requires |user| <= USER_LIMIT && t < 2
    ensures |Targets(package, user)| == 2 && Shorter(Targets(package, user)[t], Targets(package, LongestName())[t])
  {
  }

  /** The check accepts exactly when, for every user name of at most twenty characters and both
      targets, every file is within 259 and every directory from the target down within 247. */
  lemma AcceptedExactly(package: Package, files: seq<Path>)
    ensures AllWithin(package, LongestName(), files) <==>
            forall user: string :: |user| <= USER_LIMIT ==> AllWithin(package, user, files)
  {
    if AllWithin(package, LongestName(), files) {
      forall user: string | |user| <= USER_LIMIT ensures AllWithin(package, user, files) {
        forall f, t | 0 <= f < |files| && 0 <= t < |Targets(package, user)|
          ensures WithinBudget(Targets(package, user)[t], files[f])
        {
          TargetsShorter(package, user, t);
          ShorterWithin(Targets(package, user)[t], Targets(package, LongestName())[t], files[f]);
        }
      }
    } else {
      assert |LongestName()| <= USER_LIMIT;
    }
  }

  lemma LengthGrows(p: Path, c: string)
    ensures Length(p + [c]) == Length(p) + 1 + |c|
  {
    assert (p + [c])[..|p|] == p;
  }

  lemma StagingLength(user: string)
    ensures Length(Runtimes(user) + [".c-00000000"]) == 81 + |user|
  {
    LengthGrows([], "Users");
    LengthGrows(["Users"], user);
    LengthGrows(["Users", user], "AppData");
    LengthGrows(["Users", user, "AppData"], "Local");
    LengthGrows(["Users", user, "AppData", "Local"], "Programs");
    LengthGrows(["Users", user, "AppData", "Local", "Programs"], "DaHeLogisticsAutomationTool");
    assert [] + ["Users"] == ["Users"] && ["Users"] + [user] == ["Users", user];
    assert ["Users", user] + ["AppData"] == ["Users", user, "AppData"];
    assert ["Users", user, "AppData"] + ["Local"] == ["Users", user, "AppData", "Local"];
    assert ["Users", user, "AppData", "Local"] + ["Programs"] == ["Users", user, "AppData", "Local", "Programs"];
    var six := ["Users", user, "AppData", "Local", "Programs", "DaHeLogisticsAutomationTool"];
    assert ["Users", user, "AppData", "Local", "Programs"] + ["DaHeLogisticsAutomationTool"] == six;
    LengthGrows(six, "runtimes");
    assert six + ["runtimes"] == Runtimes(user);
    LengthGrows(Runtimes(user), ".c-00000000");
  }

  /** Twenty characters is the most the check can promise: for every longer user name there is
      a package it accepts that does not fit. */
  lemma BudgetIsTight(user: string) returns (file: Path)
    requires |user| > USER_LIMIT
    ensures AllWithin(CpuRuntime, LongestName(), [file]) && !AllWithin(CpuRuntime, user, [file])
  {
    file := [seq(157, _ => 'x')];
    StagingLength(user);
    StagingLength(LongestName());
    LengthGrows(Runtimes(user) + [".c-00000000"], file[0]);
    assert Runtimes(user) + [".c-00000000"] + file == Runtimes(user) + [".c-00000000"] + [file[0]];
    assert [file][0] == file && !WithinBudget(Targets(CpuRuntime, user)[1], [file][0]);
    TightFileFits(file);
  }

  lemma TightFileFits(file: Path)
    requires |file| == 1 && |file[0]| == 157
    ensures AllWithin(CpuRuntime, LongestName(), [file])
  {
    var staging, final := Targets(CpuRuntime, LongestName())[1], Targets(CpuRuntime, LongestName())[0];
    StagingLength(LongestName());
    LengthGrows(staging, file[0]);
    assert staging + file == staging + [file[0]] && (staging + file)[..|staging|] == staging;
    assert WithinBudget(staging, file);
    ShorterWithin(final, staging, file);
  }
}
