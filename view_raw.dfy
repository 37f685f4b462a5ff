/** The disclosure gate of the viewer page (components/ViewRaw.tsx): the script is shown once
    the gate is unlocked, by the Roblox environment, by the simulated environment, by a link
    without a password, or by the right password. */
module ViewRaw {
  import opened Types
  import opened Strings
  import opened Js
  import Crypto

  const DeniedText: string := "Access Denied: Invalid Password"

  /** The rule the unlock effect applies: its three early exits each set `isAuthenticated` and
      nothing ever clears it, so this is the condition under which the effect unlocks. */
  predicate UnlockRule(payload: Value, userAgent: string, simulated: bool)
    ensures UnlockRule(payload, userAgent, simulated) <==>
      Contains(userAgent, "Roblox") || simulated || !TruthyLookup(Member(payload, "password"))
  {
    Crypto.IsRobloxEnvironment(userAgent) || simulated || !TruthyLookup(Member(payload, "password"))
  }

  /** The keydown test of the locked page: F12, Ctrl+Shift+I/J/C and Ctrl+u. Keys compare
      case-sensitively, so only F12 is blocked without Ctrl, and with Ctrl alone only "u". */
  function IsBlockedKey(key: string, ctrl: bool, shift: bool): (blocked: bool)
    ensures blocked ==> key in ["F12", "I", "J", "C", "u"]
    ensures !ctrl ==> (blocked <==> key == "F12")
    ensures ctrl && !shift ==> (blocked <==> key == "F12" || key == "u")
    ensures ctrl && shift ==> (blocked <==> key in ["F12", "I", "J", "C", "u"])
  {
    key == "F12" || (ctrl && shift && (key == "I" || key == "J" || key == "C")) || (ctrl && key == "u")
  }

  class Gate {
    /** The `payload` prop, as JSON.parse returned it, and the browser's User-Agent. */
    const payload: Value
    const userAgent: string
    var isAuthenticated: bool
    var passwordInput: string
    var error: string
    var simulatedRobloxEnv: bool

    /** Between events the unlock effect has run for the current `simulatedRobloxEnv`. */
    predicate Valid()
      reads this
    {
      UnlockRule(payload, userAgent, simulatedRobloxEnv) ==> isAuthenticated
    }

    /** Mounting the component: initial state, then the first run of the unlock effect. The
        page is mounted only with a truthy payload, so `payload.password` never throws. */
    constructor(payload: Value, userAgent: string)
      requires Truthy(payload)
      ensures this.payload == payload && this.userAgent == userAgent
      ensures isAuthenticated == UnlockRule(payload, userAgent, false)
      ensures passwordInput == "" && error == "" && !simulatedRobloxEnv
      ensures Valid()
    {
      this.payload := payload;
      this.userAgent := userAgent;
      isAuthenticated := false;
      passwordInput := "";
      error := "";
      simulatedRobloxEnv := false;
      new;
      RunEffect();
    }

    /** One run of the unlock effect. */
    method RunEffect()
      modifies this
      ensures isAuthenticated == (old(isAuthenticated) || UnlockRule(payload, userAgent, simulatedRobloxEnv))
      ensures passwordInput == old(passwordInput) && error == old(error)
      ensures simulatedRobloxEnv == old(simulatedRobloxEnv)
      ensures Valid()
    {
      if Crypto.IsRobloxEnvironment(userAgent) {
        isAuthenticated := true;
        return;
      }
      if simulatedRobloxEnv {
        isAuthenticated := true;
        return;
      }
      if !TruthyLookup(Member(payload, "password")) {
        isAuthenticated := true;
      }
    }

    /** Typing into the password field. */
    method SetPasswordInput(text: string)
      requires Valid()
      modifies this
      ensures passwordInput == text
      ensures isAuthenticated == old(isAuthenticated) && error == old(error)
      ensures simulatedRobloxEnv == old(simulatedRobloxEnv)
      ensures Valid()
    {
      passwordInput := text;
    }

    /** Submitting the password form: strict equality with the payload's password. */
    method HandleUnlock()
      requires Valid()
      modifies this
      ensures Member(payload, "password") == Defined(Str(old(passwordInput))) ==>
        isAuthenticated && error == "" && passwordInput == old(passwordInput)
      ensures Member(payload, "password") != Defined(Str(old(passwordInput))) ==>
        isAuthenticated == old(isAuthenticated) && error == DeniedText && passwordInput == ""
      ensures simulatedRobloxEnv == old(simulatedRobloxEnv)
      ensures Valid()
    {
      if StrictEqualsString(Member(payload, "password"), passwordInput) {
        isAuthenticated := true;
        error := "";
      } else {
        error := DeniedText;
        passwordInput := "";
      }
    }

    /** The "Simulate Roblox User-Agent" button; the effect runs again when its dependency
        changes. */
    method SimulateRobloxEnvironment()
      requires Valid()
      modifies this
      ensures simulatedRobloxEnv && isAuthenticated
      ensures passwordInput == old(passwordInput) && error == old(error)
      ensures Valid()
    {
      var changed := !simulatedRobloxEnv;
      simulatedRobloxEnv := true;
      if changed {
        RunEffect();
      }
    }

    /** Whether a keydown is suppressed: the listener is registered only while locked. */
    predicate BlocksKey(key: string, ctrl: bool, shift: bool)
      reads this
      ensures BlocksKey(key, ctrl, shift) <==> !isAuthenticated && IsBlockedKey(key, ctrl, shift)
    {
      !isAuthenticated && IsBlockedKey(key, ctrl, shift)
    }

    /** The context menu is suppressed while locked, and only then. */
    predicate BlocksContextMenu()
      reads this
      ensures BlocksContextMenu() <==> !isAuthenticated
      ensures BlocksContextMenu() ==> BlocksKey("F12", false, false)
    {
      !isAuthenticated
    }

    /** The environment badge of the unlocked page. */
    function EnvironmentLabel(): (text: string)
      reads this
      ensures text == "Environment: Roblox" <==>
        simulatedRobloxEnv || Contains(userAgent, "Roblox")
      ensures text == "Environment: Roblox" || text == "Environment: Admin"
    {
      if simulatedRobloxEnv || Crypto.IsRobloxEnvironment(userAgent) then "Environment: Roblox"
      else "Environment: Admin"
    }
  }

  /** For a payload record, the gate opens by itself exactly when the client is Roblox, the
      environment is simulated, or the record has no password or an empty one. */
  lemma UnlockRuleForPayload(p: RawPayload, userAgent: string, simulated: bool)
    ensures UnlockRule(ToValue(p), userAgent, simulated) <==>
      Contains(userAgent, "Roblox") || simulated || p.password.None? || p.password.value == ""
  {
    ToValueFields(p);
  }

  /** The comparison is exact: the input unlocks precisely when it is the stored password,
      character for character. */
  lemma PasswordMatchesExactly(p: RawPayload, input: string)
    ensures StrictEqualsString(Member(ToValue(p), "password"), input) <==> p.password == Some(input)
  {
    ToValueFields(p);
  }
}
