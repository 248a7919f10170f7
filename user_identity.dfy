/** The browser-side identity: a self-assigned user id and display name kept
    in `localStorage`, created on first use and renamed by the user. */
module UserIdentity {
  import opened Records

  datatype User = User(userId: string, username: string)

  const UserIdKey := "userId"
  const UsernameKey := "username"
  const UserIdPrefix := "user_"
  const UsernamePrefix := "ユーザー"

  /** `localStorage.getItem(key)`: null when the key was never set. */
  function GetItem(storage: map<string, string>, key: string): (r: Option<string>)
    ensures r.Some? <==> key in storage
    ensures r.Some? ==> r.value == storage[key]
  {
    if key in storage then Some(storage[key]) else None
  }

  /** `s.slice(-n)`: the last `n` characters, or all of `s` when it is shorter.
      `-0` is `0`, so `s.slice(-0)` is all of `s` as well. */
  function SliceLast(s: string, n: nat): (r: string)
    ensures |r| == if n == 0 || |s| < n then |s| else n
    ensures s == s[..|s| - |r|] + r
  {
    if n == 0 || |s| < n then s else s[|s| - n..]
  }

  /** The identity made from a fresh UUID: `user_<uuid>`, and a display name
      ending in the last four characters of that id. */
  function FreshUser(uuid: string): (u: User)
    ensures u.userId == UserIdPrefix + uuid
    ensures |u.username| == |UsernamePrefix| + 4
    ensures u.username[..|UsernamePrefix|] == UsernamePrefix
    ensures u.username[|UsernamePrefix|..] == u.userId[|u.userId| - 4..]
  {
    var userId := UserIdPrefix + uuid;
    var username := UsernamePrefix + SliceLast(userId, 4);
    assert username[|UsernamePrefix|..] == SliceLast(userId, 4);
    User(userId, username)
  }

  /** Both keys hold a non-empty value. */
  predicate HasIdentity(storage: map<string, string>)
  {
    Truthy(GetItem(storage, UserIdKey)) && Truthy(GetItem(storage, UsernameKey))
  }

  /** The user `getCurrentUser` settles on in a browser, with the storage it
      leaves behind: a stored identity as it is, or else a fresh one written
      over both keys. */
  function ReadOrCreate(storage: map<string, string>, uuid: string): (r: (User, map<string, string>))
    ensures HasIdentity(r.1)
    ensures r.1[UserIdKey] == r.0.userId && r.1[UsernameKey] == r.0.username
    ensures HasIdentity(storage) ==> r == (User(storage[UserIdKey], storage[UsernameKey]), storage)
    ensures !HasIdentity(storage) ==> r.0 == FreshUser(uuid)
    ensures forall k :: k != UserIdKey && k != UsernameKey ==> GetItem(r.1, k) == GetItem(storage, k)
  {
    if HasIdentity(storage) then
      (User(storage[UserIdKey], storage[UsernameKey]), storage)
    else
      var u := FreshUser(uuid);
      (u, storage[UserIdKey := u.userId][UsernameKey := u.username])
  }

  /** Once a browser-side call has run, every later call answers the same
      user and writes nothing, whatever UUID it would have drawn. */
  lemma ReadOrCreateIdempotent(storage: map<string, string>, uuid: string, laterUuid: string)
    ensures ReadOrCreate(ReadOrCreate(storage, uuid).1, laterUuid) == ReadOrCreate(storage, uuid)
  {
    var (u, after) := ReadOrCreate(storage, uuid);
    assert HasIdentity(after);
  }

  // ---- String.prototype.trim -----------------------------------------------

  /** ECMAScript's WhiteSpace and LineTerminator characters, which `trim`
      strips: tab, vertical tab, form feed, the Zs space separators, the
      byte-order mark, line feed, carriage return and the line and paragraph
      separators. */
  predicate IsWhitespace(c: char)
  {
    || c == '\t' || c == '\U{000B}' || c == '\U{000C}' || c == ' ' || c == '\U{00A0}'
    || c == '\U{FEFF}' || c == '\U{1680}' || ('\U{2000}' <= c <= '\U{200A}')
    || c == '\U{202F}' || c == '\U{205F}' || c == '\U{3000}'
    || c == '\n' || c == '\r' || c == '\U{2028}' || c == '\U{2029}'
  }

  /** The number of whitespace characters at the start of `s`. */
  function LeadingSpace(s: string): (n: nat)
    ensures n <= |s|
    ensures forall i :: 0 <= i < n ==> IsWhitespace(s[i])
    ensures n < |s| ==> !IsWhitespace(s[n])
  {
    if s != [] && IsWhitespace(s[0]) then 1 + LeadingSpace(s[1..]) else 0
  }

  /** The number of whitespace characters at the end of `s`. */
  function TrailingSpace(s: string): (n: nat)
    ensures n <= |s|
    ensures forall i :: |s| - n <= i < |s| ==> IsWhitespace(s[i])
    ensures n < |s| ==> !IsWhitespace(s[|s| - n - 1])
  {
    if s != [] && IsWhitespace(s[|s| - 1]) then 1 + TrailingSpace(s[..|s| - 1]) else 0
  }

  /** `s.trim()`: `s` without its leading and trailing whitespace. It is empty
      exactly when `s` is blank, and otherwise starts and ends with a
      non-whitespace character. */
  function Trim(s: string): (r: string)
    ensures |r| <= |s|
    ensures r == [] <==> forall i :: 0 <= i < |s| ==> IsWhitespace(s[i])
    ensures r != [] ==> !IsWhitespace(r[0]) && !IsWhitespace(r[|r| - 1])
    ensures var a := LeadingSpace(s);
            && a + |r| <= |s| && s[a..a + |r|] == r
            && (forall i :: 0 <= i < a ==> IsWhitespace(s[i]))
            && (forall i :: a + |r| <= i < |s| ==> IsWhitespace(s[i]))
  {
    var a := LeadingSpace(s);
    var rest := s[a..];
    var r := rest[..|rest| - TrailingSpace(rest)];
    assert r != [] ==> r[0] == rest[0] && rest[0] == s[a];
    assert a < |s| ==> rest[0] == s[a];
    assert s[a..a + |r|] == r;
    assert forall i :: a + |r| <= i < |s| ==> s[i] == rest[i - a];
    r
  }

  /** Trimming twice is trimming once. */
  lemma TrimIdempotent(s: string)
    ensures Trim(Trim(s)) == Trim(s)
  {
    var r := Trim(s);
    if r != [] {
      assert LeadingSpace(r) == 0;
      assert TrailingSpace(r) == 0;
      assert r[0..] == r && r[..|r|] == r;
    }
  }

  /** The browser, as far as the identity helpers see it: whether a window
      exists (false while rendering on the server) and its `localStorage`. */
  class Browser {
    const hasWindow: bool
    var localStorage: map<string, string>

    constructor (hasWindow: bool, localStorage: map<string, string>)
      ensures this.hasWindow == hasWindow && this.localStorage == localStorage
    {
      this.hasWindow := hasWindow;
      this.localStorage := localStorage;
    }

    /** `getCurrentUser`, with the UUID it would draw passed in. */
    method GetCurrentUser(uuid: string) returns (u: Option<User>)
      modifies this
      ensures !hasWindow ==> u == None && localStorage == old(localStorage)
      ensures hasWindow ==> u == Some(ReadOrCreate(old(localStorage), uuid).0)
      ensures hasWindow ==> localStorage == ReadOrCreate(old(localStorage), uuid).1
    {
      if !hasWindow {
        return None;
      }
      var userId := GetItem(localStorage, UserIdKey);
      var username := GetItem(localStorage, UsernameKey);
      if !Truthy(userId) || !Truthy(username) {
        var id := UserIdPrefix + uuid;
        userId := Some(id);
        username := Some(UsernamePrefix + SliceLast(id, 4));
        localStorage := localStorage[UserIdKey := userId.value];
        localStorage := localStorage[UsernameKey := username.value];
      }
      u := Some(User(userId.value, username.value));
    }

    /** `updateUsername`: store the trimmed name, unless there is no window or
        the name is blank. The user id is never touched. */
    method UpdateUsername(newUsername: string)
      modifies this
      ensures !hasWindow || Trim(newUsername) == [] ==> localStorage == old(localStorage)
      ensures hasWindow && Trim(newUsername) != [] ==>
                localStorage == old(localStorage)[UsernameKey := Trim(newUsername)]
      ensures GetItem(localStorage, UserIdKey) == GetItem(old(localStorage), UserIdKey)
    {
      if !hasWindow || Trim(newUsername) == [] {
        return;
      }
      localStorage := localStorage[UsernameKey := Trim(newUsername)];
    }
  }
}
