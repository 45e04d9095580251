/** The `user` table record of models/user.py: its fields and defaults, the two role properties
    and the two ORM validators that run whenever a username or an email is assigned. */
module UserModel {
  import opened Common
  import Patterns

  datatype UserRoles = ADMIN | MODERATOR | USER

  datatype User = User(
    id: int,
    username: string,
    email: string,
    firstName: Option<string>,
    lastName: Option<string>,
    isSuperuser: bool,
    bio: Option<string>,
    role: UserRoles,
    confirmationCode: string)

  /** A user as the ORM constructs it from a username, an email and a code: the optional
      profile fields are null, `is_superuser` and `role` take their column defaults. */
  function NewUser(id: int, username: string, email: string, code: string): User
  {
    User(id, username, email, None, None, false, None, USER, code)
  }

  /** The `is_admin` property. */
  predicate IsAdmin(u: User)
  {
    u.role == ADMIN || u.isSuperuser
  }

  /** The `is_moderator` property: the superuser flag plays no part. */
  predicate IsModerator(u: User)
  {
    u.role == MODERATOR
  }

  /** A freshly created user holds no privilege. */
  lemma NewUserIsPlain(id: int, username: string, email: string, code: string)
    ensures var u := NewUser(id, username, email, code);
            u.role == USER && !u.isSuperuser && !IsAdmin(u) && !IsModerator(u)
            && u.username == username && u.email == email && u.confirmationCode == code
  {
  }

  // ---------------------------------------------------------------- username

  /** Python's `\w` on a `str` pattern: the ASCII letters, digits and `_`, and those non-ASCII
      characters that Unicode calls alphanumeric, given here by `unicodeWord`. */
  predicate WordChar(unicodeWord: char -> bool, c: char)
  {
    AsciiAlnum(c) || c == '_' || (c as int >= 128 && unicodeWord(c))
  }

  /** The class `[\w.@+-]`. */
  predicate UsernameChar(unicodeWord: char -> bool, c: char)
  {
    WordChar(unicodeWord, c) || c == '.' || c == '@' || c == '+' || c == '-'
  }

  function UsernameClass(unicodeWord: char -> bool): char -> bool
  {
    c => UsernameChar(unicodeWord, c)
  }

  /** `str.lower()` on the characters that can lower to `m` or `e`: only the ASCII capitals do. */
  function Lower(c: char): char
  {
    if 'A' <= c <= 'Z' then (c as int + 32) as char else c
  }

  function LowerString(s: string): (r: string)
    ensures |r| == |s|
    ensures forall i :: 0 <= i < |s| ==> r[i] == Lower(s[i])
  {
    if s == [] then [] else [Lower(s[0])] + LowerString(s[1..])
  }

  /** `value.lower() == "me"`. */
  predicate IsMe(s: string)
  {
    LowerString(s) == "me"
  }

  /** The four spellings of "me" in any letter case, and nothing else. */
  lemma IsMeSpellings(s: string)
    ensures IsMe(s) <==> s == "me" || s == "Me" || s == "mE" || s == "ME"
  {
    if IsMe(s) {
      assert |s| == 2;
      assert Lower(s[0]) == 'm' && Lower(s[1]) == 'e';
      assert s[0] == 'm' || s[0] == 'M';
      assert s[1] == 'e' || s[1] == 'E';
      assert s == [s[0], s[1]];
    }
    if s == "me" || s == "Me" || s == "mE" || s == "ME" {
      assert LowerString(s) == [Lower(s[0]), Lower(s[1])];
    }
  }

  /** `validate_username`: `re.match(r"^[\w.@+-]+$", value)`, then the ban on "me". */
  function ValidateUsername(unicodeWord: char -> bool, value: string): (r: Checked<string>)
    ensures r.Accepted? <==> Patterns.PyMatchPlus(UsernameClass(unicodeWord), value) && !IsMe(value)
    ensures r.Accepted? ==> r.value == value
    ensures !Patterns.PyMatchPlus(UsernameClass(unicodeWord), value) ==> r == Rejected("Username is invalid")
    ensures Patterns.PyMatchPlus(UsernameClass(unicodeWord), value) && IsMe(value) ==>
              r == Rejected("Username cant be me")
  {
    if !Patterns.PyMatchPlus(UsernameClass(unicodeWord), value) then Rejected("Username is invalid")
    else if |value| > 0 && IsMe(value) then Rejected("Username cant be me")
    else Accepted(value)
  }

  lemma UsernameRejectsMe(unicodeWord: char -> bool, value: string)
    requires value == "me" || value == "Me" || value == "mE" || value == "ME"
    ensures ValidateUsername(unicodeWord, value).Rejected?
  {
    IsMeSpellings(value);
  }

  lemma UsernameRejectsEmpty(unicodeWord: char -> bool)
    ensures ValidateUsername(unicodeWord, "") == Rejected("Username is invalid")
  {
  }

  /** An accepted username is non-empty and is made of `[\w.@+-]`, save for at most one final
      newline, which Python's `$` lets through. */
  lemma AcceptedUsernameChars(unicodeWord: char -> bool, value: string)
    requires ValidateUsername(unicodeWord, value).Accepted?
    ensures |value| > 0
    ensures forall i :: 0 <= i < |value| ==>
              UsernameChar(unicodeWord, value[i]) || (i == |value| - 1 && value[i] == '\n')
  {
    var cls := UsernameClass(unicodeWord);
    if !(|value| > 0 && Patterns.All(cls, value)) {
      var p := value[..|value| - 1];
      assert Patterns.All(cls, p);
      forall i | 0 <= i < |value| - 1 ensures UsernameChar(unicodeWord, value[i]) {
        assert cls(p[i]);
      }
    }
  }

  /** The final newline is really accepted: "name\n" passes whenever "name" does and holds no
      newline of its own. */
  lemma UsernameTrailingNewline(unicodeWord: char -> bool, value: string)
    requires '\n' !in value
    requires ValidateUsername(unicodeWord, value).Accepted?
    ensures ValidateUsername(unicodeWord, value + "\n") == Accepted(value + "\n")
  {
    var cls := UsernameClass(unicodeWord);
    var t := value + "\n";
    assert t[..|t| - 1] == value;
    Patterns.PyMatchPlusWithoutNewline(cls, value);
    assert Patterns.PyMatchPlus(cls, t);
    assert |LowerString(t)| == |t| && |t| >= 2;
  }

  // ------------------------------------------------------------------- email

  /** `[a-zA-Z0-9_.+-]`, the local part. */
  predicate LocalChar(c: char)
  {
    AsciiAlnum(c) || c == '_' || c == '.' || c == '+' || c == '-'
  }

  /** `[a-zA-Z0-9-]`, the first domain label. */
  predicate LabelChar(c: char)
  {
    AsciiAlnum(c) || c == '-'
  }

  /** `[a-zA-Z0-9-.]`, the rest of the domain. */
  predicate RestChar(c: char)
  {
    AsciiAlnum(c) || c == '-' || c == '.'
  }

  /** `[a-zA-Z0-9-.]+$` from the current position. */
  function DomainRest(s: string): bool
  {
    Patterns.PyMatchPlus(RestChar, s)
  }

  /** `[a-zA-Z0-9-]+\.[a-zA-Z0-9-.]+$` from the current position. */
  function Domain(s: string): bool
  {
    Patterns.PlusThen(LabelChar, '.', DomainRest, s)
  }

  /** The character-level recognizer of
      `^[a-zA-Z0-9_.+-]+@[a-zA-Z0-9-]+\.[a-zA-Z0-9-.]+$` under `re.match`. */
  function MatchEmail(s: string): bool
  {
    Patterns.PlusThen(LocalChar, '@', Domain, s)
  }

  /** The language of the domain part: `label . rest` with a non-empty label. */
  ghost predicate DomainShape(t: string)
  {
    exists j :: 0 < j < |t| && t[j] == '.' && Patterns.All(LabelChar, t[..j]) && DomainRest(t[j + 1..])
  }

  /** The language of the whole pattern: `local @ domain` with a non-empty local part. */
  ghost predicate EmailShape(s: string)
  {
    exists i :: 0 < i < |s| && s[i] == '@' && Patterns.All(LocalChar, s[..i]) && DomainShape(s[i + 1..])
  }

  /** The recognizer accepts exactly the texts of the shape. */
  lemma MatchEmailShape(s: string)
    ensures MatchEmail(s) <==> EmailShape(s)
  {
    Patterns.PlusThenSplit(LocalChar, '@', Domain, s);
    if MatchEmail(s) {
      var i :| 0 < i < |s| && s[i] == '@' && Patterns.All(LocalChar, s[..i]) && Domain(s[i + 1..]);
      Patterns.PlusThenSplit(LabelChar, '.', DomainRest, s[i + 1..]);
    }
    if EmailShape(s) {
      var i :| 0 < i < |s| && s[i] == '@' && Patterns.All(LocalChar, s[..i]) && DomainShape(s[i + 1..]);
      Patterns.PlusThenSplit(LabelChar, '.', DomainRest, s[i + 1..]);
    }
  }

  /** The rest of the domain holds no `@`. */
  lemma DomainRestHasNoAt(rest: string)
    requires DomainRest(rest)
    ensures '@' !in rest
  {
    if |rest| > 0 && Patterns.All(RestChar, rest) {
      Patterns.AllExcludes(RestChar, rest, '@');
    } else {
      var p := rest[..|rest| - 1];
      Patterns.AllExcludes(RestChar, p, '@');
      assert rest == p + "\n";
    }
  }

  /** No `@` occurs after the one that separates the local part, and a `.` does. */
  lemma DomainHasNoAt(t: string)
    requires DomainShape(t)
    ensures '@' !in t && '.' in t
  {
    var j :| 0 < j < |t| && t[j] == '.' && Patterns.All(LabelChar, t[..j]) && DomainRest(t[j + 1..]);
    Patterns.AllExcludes(LabelChar, t[..j], '@');
    DomainRestHasNoAt(t[j + 1..]);
    assert t == t[..j] + [t[j]] + t[j + 1..];
  }

  /** An accepted email has exactly one `@`, and a `.` somewhere after it. */
  lemma EmailShapeOneAt(s: string)
    requires EmailShape(s)
    ensures exists i :: 0 < i < |s| && s[i] == '@'
              && (forall k :: 0 <= k < |s| && s[k] == '@' ==> k == i)
              && '.' in s[i + 1..]
  {
    var i :| 0 < i < |s| && s[i] == '@' && Patterns.All(LocalChar, s[..i]) && DomainShape(s[i + 1..]);
    DomainHasNoAt(s[i + 1..]);
    Patterns.AllExcludes(LocalChar, s[..i], '@');
    Patterns.SoleOccurrence(s, i, '@');
  }

  /** `validate_email`. */
  function ValidateEmail(value: string): (r: Checked<string>)
    ensures r.Accepted? <==> EmailShape(value)
    ensures r.Accepted? ==> r.value == value
    ensures r.Rejected? ==> r.reason == "Invalid email format"
  {
    MatchEmailShape(value);
    if MatchEmail(value) then Accepted(value) else Rejected("Invalid email format")
  }
}
