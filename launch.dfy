/** The relaunch half of the POSIX desktop launcher (DesktopPosixApplicationLaunch.cpp).

    The process environment is a mutable name -> value table shared by the whole
    process; it is modelled as an `Environment` object whose `vars` map the
    launcher's methods update in place. Starting a detached process is recorded
    as a `Spawn` snapshot of (program, arguments, environment) at that moment.
 */
module PosixLaunch {

  /** The shared-library search path, restored from the launch-time snapshot. */
  const LdLibraryPath: string := "LD_LIBRARY_PATH"

  /** kRStudioInitialWorkingDir: tells the new process where to start. */
  const InitialWorkingDir: string := "RS_INITIAL_WD"

  /** `getenv` returns a std::string, and QProcessEnvironment::value a QString
      defaulting to empty: an unset name reads as "", so an unset variable and
      one set to "" cannot be told apart. */
  function Getenv(env: map<string, string>, name: string): (value: string)
    ensures name in env ==> value == env[name]
    ensures value == "" <==> name !in env || env[name] == ""
  {
    if name in env then env[name] else ""
  }

  /** What QProcess::startDetached was handed. */
  datatype Spawn = Spawn(program: string, arguments: seq<string>, environment: map<string, string>)

  /** The environment at the moment of the detached start: LD_LIBRARY_PATH
      overwritten with the launch-time value, the initial directory set,
      every other variable as it was. */
  function EnvAtSpawn(env: map<string, string>, launchEnv: map<string, string>, initialDir: string): (r: map<string, string>)
    ensures LdLibraryPath in r && r[LdLibraryPath] == Getenv(launchEnv, LdLibraryPath)
    ensures InitialWorkingDir in r && r[InitialWorkingDir] == initialDir
    ensures forall k :: k != LdLibraryPath && k != InitialWorkingDir ==>
              (k in r <==> k in env) && (k in env ==> r[k] == env[k])
  {
    env[LdLibraryPath := Getenv(launchEnv, LdLibraryPath)][InitialWorkingDir := initialDir]
  }

  /** The environment after the relaunch returns: LD_LIBRARY_PATH holds what
      `getenv` read on entry (so an unset variable comes back as ""), the
      initial-directory variable is gone whatever it held before, and every
      other variable is untouched. */
  function EnvAfterRelaunch(env: map<string, string>): (r: map<string, string>)
    ensures LdLibraryPath in r && r[LdLibraryPath] == Getenv(env, LdLibraryPath)
    ensures LdLibraryPath !in env ==> r[LdLibraryPath] == ""
    ensures InitialWorkingDir !in r
    ensures forall k :: k != LdLibraryPath && k != InitialWorkingDir ==>
              (k in r <==> k in env) && (k in env ==> r[k] == env[k])
  {
    env[LdLibraryPath := Getenv(env, LdLibraryPath)] - {InitialWorkingDir}
  }

  /** The restore steps undo the overrides made before the spawn: starting from
      the spawn-time environment, putting the saved LD_LIBRARY_PATH back and
      unsetting the initial directory gives the same table whatever the
      launch-time snapshot or the initial directory was. */
  lemma RestoreUndoesOverrides(env: map<string, string>, launchEnv: map<string, string>, initialDir: string)
    ensures EnvAtSpawn(env, launchEnv, initialDir)[LdLibraryPath := Getenv(env, LdLibraryPath)] - {InitialWorkingDir}
            == EnvAfterRelaunch(env)
  {
    var lhs := EnvAtSpawn(env, launchEnv, initialDir)[LdLibraryPath := Getenv(env, LdLibraryPath)] - {InitialWorkingDir};
    var rhs := EnvAfterRelaunch(env);
    assert lhs.Keys == rhs.Keys;
  }

  /** The relaunch leaves the environment exactly as it found it if and only if
      LD_LIBRARY_PATH was set and the initial-directory variable was not. */
  lemma RelaunchRestoresExactlyIff(env: map<string, string>)
    ensures EnvAfterRelaunch(env) == env <==> (LdLibraryPath in env && InitialWorkingDir !in env)
  {
    var r := EnvAfterRelaunch(env);
    if LdLibraryPath in env && InitialWorkingDir !in env {
      assert r.Keys == env.Keys;
    } else if LdLibraryPath !in env {
      assert LdLibraryPath in r;
    } else {
      assert InitialWorkingDir in env && InitialWorkingDir !in r;
    }
  }

  /** A relaunch does not change what a later relaunch hands to its child. */
  lemma RelaunchDoesNotAffectNextSpawn(env: map<string, string>, launchEnv: map<string, string>, dir: string)
    ensures EnvAtSpawn(EnvAfterRelaunch(env), launchEnv, dir) == EnvAtSpawn(env, launchEnv, dir)
  {
    var a := EnvAtSpawn(EnvAfterRelaunch(env), launchEnv, dir);
    var b := EnvAtSpawn(env, launchEnv, dir);
    assert a.Keys == b.Keys;
  }

  /** The argument list handed to the detached start: `args` copied one by one. */
  method ToArgList(args: seq<string>) returns (argList: seq<string>)
    ensures |argList| == |args|
    ensures forall i :: 0 <= i < |args| ==> argList[i] == args[i]
  {
    argList := [];
    for i := 0 to |args|
      invariant argList == args[..i]
    {
      argList := argList + [args[i]];
    }
  }

  /** The process-wide environment table. */
  class Environment {
    var vars: map<string, string>

    constructor (initial: map<string, string>)
      ensures vars == initial
    {
      vars := initial;
    }

    /** core::system::getenv */
    method Get(name: string) returns (value: string)
      ensures value == Getenv(vars, name)
    {
      value := Getenv(vars, name);
    }

    /** core::system::setenv */
    method Set(name: string, value: string)
      modifies this
      ensures vars == old(vars)[name := value]
    {
      vars := vars[name := value];
    }

    /** core::system::unsetenv */
    method Unset(name: string)
      modifies this
      ensures vars == old(vars) - {name}
    {
      vars := vars - {name};
    }
  }

  /** The window registered for activation (a QWidget, only ever referred to). */
  class Widget {
  }

  class ApplicationLaunch {
    /** The environment of this process, shared with everything else in it. */
    const environment: Environment
    /** launchEnv_: the environment as it was when the launcher was created. */
    var launchEnv: map<string, string>
    /** pMainWindow_ */
    var mainWindow: Widget?
    /** Every detached start so far, oldest first. */
    var spawned: seq<Spawn>

    /** The constructor snapshots the system environment. */
    constructor (environment: Environment)
      ensures this.environment == environment
      ensures launchEnv == environment.vars
      ensures mainWindow == null && spawned == []
    {
      this.environment := environment;
      launchEnv := environment.vars;
      mainWindow := null;
      spawned := [];
    }

    method SetActivationWindow(window: Widget?)
      modifies this`mainWindow
      ensures mainWindow == window
    {
      mainWindow := window;
    }

    /** launchRStudio: start `exePath` detached with `args`, with the launch-time
        LD_LIBRARY_PATH and the initial directory in its environment, then
        restore this process's environment. */
    method LaunchRStudio(args: seq<string>, initialDir: string, exePath: string)
      modifies this`spawned, environment
      ensures spawned == old(spawned) + [Spawn(exePath, args, EnvAtSpawn(old(environment.vars), launchEnv, initialDir))]
      ensures environment.vars == EnvAfterRelaunch(old(environment.vars))
      ensures launchEnv == old(launchEnv) && mainWindow == old(mainWindow)
    {
      var argList := ToArgList(args);
      assert argList == args;

      // the child gets the LD_LIBRARY_PATH of the launch-time snapshot
      var ldPath := environment.Get(LdLibraryPath);
      environment.Set(LdLibraryPath, Getenv(launchEnv, LdLibraryPath));

      environment.Set(InitialWorkingDir, initialDir);

      spawned := spawned + [Spawn(exePath, argList, environment.vars)];

      environment.Set(LdLibraryPath, ldPath);
      environment.Unset(InitialWorkingDir);
      RestoreUndoesOverrides(old(environment.vars), launchEnv, initialDir);
    }
  }
}
