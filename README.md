# Validators and interaction state of the mobile app's screens

This project models the input logic of six screens of a React Native app.

- **Form validators.** The validators of the login, register and change-password screens, and the inline checks of the forgot-password screen. Each turns the typed strings into an error record keyed by field. The form is valid exactly when that record has no keys.
- **Submit handlers.** Each handler passes normalised inputs to the auth store, and only when validation passed: the e-mail is `trim().toLowerCase()`, the name is trimmed.
- **Price filter sheet.** A constant table of four ranges, the selected label, and the apply and clear handlers with the callbacks they fire.
- **Chat input.** Every keystroke announces typing and restarts a 1000 ms timer that later announces the end of typing. Send ignores blank input. The mount effect has its cleanup.

The calls to the auth and chat stores are not executed. They are appended to a call log that each screen keeps. Each screen is a `class` whose fields are the screen's state hooks.

An `async` handler is split at its `await`:
- the first method validates, sets the busy flag and logs the call;
- a `…Settled` method clears the flag once the call has answered.

Modules:

- `JsText`: the JavaScript string primitives the screens use.
  - The white-space set shared by `trim()` and `\s`.
  - `trim()`, `toLowerCase()` and `length`, where `length` counts UTF-16 code units.
- `EmailPattern`: the regular expression `/\S+@\S+\.\S+/` and its `test`.
  - `RegexTest` is the unanchored search, written as the regular expression's meaning.
  - `EmailFormatOk` is an executable index characterisation.
  - Both are proved equal.
  - `NormalizeEmail` is `email.trim().toLowerCase()`.
- `AuthApi`: the auth-store calls the screens make.
- `AuthForms`: the error records `validateForm` builds, as functions, with the rule-by-rule lemmas.
- `Login`, `Register`, `ResetPassword`, `ForgotPassword`: one class per screen. Each screen's `Valid()` invariant says that every logged call came from a form that passed validation.
- `Filter`: the price filter sheet.
- `Chat`: the chat screen, with a simulated clock.
  - `now` is the current time.
  - `timers` is the runtime's queue of pending timers.
  - `log` records every chat-store call together with its time.

## Model

| member | source | states |
|---|---|---|
| JsText.IsSpace | src/presentation/screens/auth/LoginScreen.tsx:23-25 | no contract of its own: the ECMAScript WhiteSpace and LineTerminator characters, the set both `trim()` and `\S` use; `TrimStartSpec`, `TrimEndSpec` and `EmailPattern.EmailFormatOkIsRegexTest` specify its uses |
| JsText.Trim | src/presentation/screens/auth/LoginScreen.tsx:23 | no contract of its own; specified by `TrimStartSpec`, `TrimEndSpec`, `TrimIsInfix`, `TrimEmptyIffAllSpace` and `TrimIdempotent` |
| JsText.IsBlank | src/presentation/screens/auth/LoginScreen.tsx:23 | no contract of its own (`!s.trim()`); specified by `TrimEmptyIffAllSpace` |
| JsText.ToLower | src/presentation/screens/auth/LoginScreen.tsx:43 | no contract of its own; specified by `ToLowerSpec` and `ToLowerIdempotent` |
| JsText.JsLength | src/presentation/screens/auth/LoginScreen.tsx:31 | no contract of its own (`length` in UTF-16 code units); specified by `JsLengthBounds` |
| JsText.TrimStartSpec | src/presentation/screens/auth/LoginScreen.tsx:23 | `trim`'s leading part: the result is the suffix that starts at the first non-space character; everything before it is white space |
| JsText.TrimEndSpec | src/presentation/screens/auth/LoginScreen.tsx:23 | `trim`'s trailing part: the result is the prefix that ends at the last non-space character; everything after it is white space |
| JsText.TrimIsInfix | src/presentation/screens/auth/LoginScreen.tsx:23 | `s.trim()` is the infix of `s` between its leading and trailing white space and has no white space at either end |
| JsText.TrimEmptyIffAllSpace | src/presentation/screens/auth/LoginScreen.tsx:23 | `!s.trim()` holds exactly when every character of `s` is white space |
| JsText.TrimIdempotent | src/presentation/screens/auth/RegisterScreen.tsx:53 | trimming a trimmed string changes nothing |
| JsText.ToLowerSpec | src/presentation/screens/auth/LoginScreen.tsx:43 | `toLowerCase` keeps the length, leaves no capital A–Z, and keeps every white-space, '@' and '.' position |
| JsText.ToLowerIdempotent | src/presentation/screens/auth/LoginScreen.tsx:43 | lower-casing twice is lower-casing once |
| JsText.JsLengthBounds | src/presentation/screens/auth/LoginScreen.tsx:31 | `length` in UTF-16 code units lies between the number of characters and twice that, and is 0 only for "" |
| EmailPattern.RegexTest | src/presentation/screens/auth/LoginScreen.tsx:25 | no contract of its own: the meaning of `/\S+@\S+\.\S+/.test(s)`, some infix of `s` matching the whole pattern; related to `EmailFormatOk` by `EmailFormatOkIsRegexTest` |
| EmailPattern.EmailFormatOk | src/presentation/screens/auth/LoginScreen.tsx:25 | no contract of its own; `EmailFormatOkIsRegexTest`, `EmailFormatIgnoresTrim` and `EmailFormatIgnoresLower` specify it |
| EmailPattern.NormalizeEmail | src/presentation/screens/auth/LoginScreen.tsx:43 | no contract of its own (`email.trim().toLowerCase()`); specified by `NormalizeEmailFormat` and `NormalizeEmailIdempotent` |
| EmailPattern.EmailFormatOkIsRegexTest | src/presentation/screens/auth/LoginScreen.tsx:25 | the index test (an '@' with a non-space character before it, a '.' after the '@' with non-space characters strictly between them, and a non-space character after the '.') holds exactly when the unanchored `\S+@\S+\.\S+` finds a match somewhere in the string |
| EmailPattern.EmailFormatIgnoresTrim | src/presentation/screens/auth/LoginScreen.tsx:25 | trimming does not change whether the pattern matches |
| EmailPattern.EmailFormatIgnoresLower | src/presentation/screens/auth/LoginScreen.tsx:43 | lower-casing does not change whether the pattern matches |
| EmailPattern.NormalizeEmailFormat | src/presentation/screens/auth/LoginScreen.tsx:43 | the e-mail sent to the store matches the pattern exactly when the typed e-mail does |
| EmailPattern.NormalizeEmailIdempotent | src/presentation/screens/auth/LoginScreen.tsx:43 | normalising an already normalised e-mail changes nothing |
| AuthForms.EmailError | src/presentation/screens/auth/LoginScreen.tsx:23-27 | no contract of its own; specified by `EmailErrorSpec` |
| AuthForms.PasswordError | src/presentation/screens/auth/LoginScreen.tsx:29-33 | no contract of its own; specified by `PasswordErrorSpec` and `SixCharactersSuffice` |
| AuthForms.ConfirmError | src/presentation/screens/auth/RegisterScreen.tsx:41-43 | no contract of its own; specified by `RegisterConfirmRule` and `ResetConfirmRule` |
| AuthForms.NameError | src/presentation/screens/auth/RegisterScreen.tsx:25-27 | no contract of its own; specified by `RegisterNameRule` |
| AuthForms.LoginErrors | src/presentation/screens/auth/LoginScreen.tsx:20-36 | no contract of its own; specified by `LoginEmailRule`, `LoginPasswordRule` and `LoginValidIff` |
| AuthForms.RegisterErrors | src/presentation/screens/auth/RegisterScreen.tsx:22-46 | no contract of its own; specified by `RegisterNameRule`, `RegisterMatchesLogin`, `RegisterConfirmRule` and `RegisterValidIff` |
| AuthForms.ResetErrors | src/presentation/screens/usuario/ResetPasswordScreen.tsx:21-35 | no contract of its own; specified by `ResetPasswordRule`, `ResetConfirmRule` and `ResetValidIff` |
| AuthForms.NoKeysIsEmpty | src/presentation/screens/auth/LoginScreen.tsx:36 | `Object.keys(newErrors).length === 0` holds exactly when the record is empty |
| AuthForms.EmailErrorSpec | src/presentation/screens/auth/LoginScreen.tsx:23-27 | an all-space e-mail gets "El email es requerido" and the format test is skipped; one that has a non-space character and no match gets "Email inválido"; otherwise there is no error |
| AuthForms.PasswordErrorSpec | src/presentation/screens/auth/LoginScreen.tsx:29-33 | an empty password gets the "required" message, and a non-empty one under 6 code units gets the length message (so never both); there is no error exactly when it has at least 6 code units |
| AuthForms.SixCharactersSuffice | src/presentation/screens/auth/LoginScreen.tsx:31 | a password of six or more characters never gets a password error, since `length` counts at least one code unit per character |
| AuthForms.LoginEmailRule | src/presentation/screens/auth/LoginScreen.tsx:23-27 | the login record's e-mail key: "required" for an all-space e-mail, "invalid" for a non-blank one that fails the unanchored test on the untrimmed text, and absent exactly otherwise |
| AuthForms.LoginPasswordRule | src/presentation/screens/auth/LoginScreen.tsx:29-33 | the login record's password key: "requerida" when empty, the length message when it has 1–5 code units, and absent exactly when it has at least 6 |
| AuthForms.LoginValidIff | src/presentation/screens/auth/LoginScreen.tsx:20-37 | the login record has only the email and password keys, and is empty exactly when the e-mail has a non-space character and a match and the password has at least 6 code units |
| AuthForms.RegisterNameRule | src/presentation/screens/auth/RegisterScreen.tsx:25-27 | the name key is set exactly when the name is blank after trim, and then holds "El nombre es requerido" |
| AuthForms.RegisterMatchesLogin | src/presentation/screens/auth/RegisterScreen.tsx:29-39 | the register record's e-mail and password keys are those of the login record for the same strings |
| AuthForms.RegisterConfirmRule | src/presentation/screens/auth/RegisterScreen.tsx:41-43 | the confirmation key is set exactly when the two passwords differ, whatever the password's own error; two empty fields give only the "requerida" error |
| AuthForms.RegisterValidIff | src/presentation/screens/auth/RegisterScreen.tsx:22-47 | the register record is empty exactly when the name is not blank, the e-mail passes both checks, the password has at least 6 code units and the confirmation equals it |
| AuthForms.ResetPasswordRule | src/presentation/screens/usuario/ResetPasswordScreen.tsx:24-28 | an empty new password gets "La nueva contraseña es requerida", and one of 1–5 code units gets the length message; the key is absent exactly when it has at least 6 |
| AuthForms.ResetConfirmRule | src/presentation/screens/usuario/ResetPasswordScreen.tsx:30-32 | the confirmation key is set exactly when the new password and the confirmation differ, and then holds "Las contraseñas no coinciden" |
| AuthForms.ResetValidIff | src/presentation/screens/usuario/ResetPasswordScreen.tsx:21-36 | the change-password record has only its two keys, and is empty exactly when the new password has at least 6 code units and equals the confirmation |
| Login.FromValidFormWellFormed | src/presentation/screens/auth/LoginScreen.tsx:39-43 | a sign-in that came from a valid form carries a normalised e-mail that matches the pattern and a password of at least 6 code units |
| Login.LoginScreen.constructor | src/presentation/screens/auth/LoginScreen.tsx:12-16 | both fields are empty, there are no errors, the screen is not loading and no call has been made |
| Login.LoginScreen.SetEmail | src/presentation/screens/auth/LoginScreen.tsx:76 | `setEmail` stores the text and nothing else changes |
| Login.LoginScreen.SetPassword | src/presentation/screens/auth/LoginScreen.tsx:87 | `setPassword` stores the text and nothing else changes |
| Login.LoginScreen.ValidateForm | src/presentation/screens/auth/LoginScreen.tsx:20-37 | the stored errors are replaced wholesale by the login record, and the result is true exactly when that record is empty |
| Login.LoginScreen.HandleLogin | src/presentation/screens/auth/LoginScreen.tsx:39-43 | on a failed validation no call is made and `isLoading` is untouched; otherwise `isLoading` is set and `signIn` is logged once, with the trimmed, lower-cased e-mail and the unmodified password; every logged call came from a valid form |
| Login.LoginScreen.SignInSettled | src/presentation/screens/auth/LoginScreen.tsx:44 | `isLoading` is false after the call |
| Register.FromValidFormWellFormed | src/presentation/screens/auth/RegisterScreen.tsx:49-53 | a sign-up that came from a valid form carries a normalised e-mail that matches the pattern, a password of at least 6 code units and a non-empty trimmed name |
| Register.RegisterScreen.constructor | src/presentation/screens/auth/RegisterScreen.tsx:12-18 | all four fields are empty, there are no errors, the screen is not loading and no call has been made |
| Register.RegisterScreen.SetNombreCompleto | src/presentation/screens/auth/RegisterScreen.tsx:90 | stores the name |
| Register.RegisterScreen.SetEmail | src/presentation/screens/auth/RegisterScreen.tsx:99 | stores the e-mail |
| Register.RegisterScreen.SetPassword | src/presentation/screens/auth/RegisterScreen.tsx:110 | stores the password |
| Register.RegisterScreen.SetConfirmPassword | src/presentation/screens/auth/RegisterScreen.tsx:122 | stores the confirmation |
| Register.RegisterScreen.ValidateForm | src/presentation/screens/auth/RegisterScreen.tsx:22-47 | the stored errors are replaced by the register record, and the result is true exactly when that record is empty |
| Register.RegisterScreen.HandleRegister | src/presentation/screens/auth/RegisterScreen.tsx:49-53 | `signUp` is logged only when the form is valid, with the lower-cased trimmed e-mail, the raw password and the trimmed name; otherwise nothing is logged and `isLoading` is untouched |
| Register.RegisterScreen.SignUpSettled | src/presentation/screens/auth/RegisterScreen.tsx:54 | `isLoading` is false after the call |
| ResetPassword.FromValidFormWellFormed | src/presentation/screens/usuario/ResetPasswordScreen.tsx:38-42 | an `updatePassword` that came from a valid form carries a password of at least 6 code units |
| ResetPassword.ResetPasswordScreen.constructor | src/presentation/screens/usuario/ResetPasswordScreen.tsx:13-19 | both fields are empty, there are no errors, the screen is not loading and no call has been made |
| ResetPassword.ResetPasswordScreen.ChangeNewPassword | src/presentation/screens/usuario/ResetPasswordScreen.tsx:70-73 | stores the new password and blanks only its own error: afterwards the new-password key holds "", and the confirmation's message, present or absent, is as before; the confirmation text is unchanged |
| ResetPassword.ResetPasswordScreen.ChangeConfirmPassword | src/presentation/screens/usuario/ResetPasswordScreen.tsx:85-88 | stores the confirmation and blanks only its own error |
| ResetPassword.ResetPasswordScreen.ValidateForm | src/presentation/screens/usuario/ResetPasswordScreen.tsx:21-36 | the stored errors are replaced by the change-password record, and the result is true exactly when that record is empty |
| ResetPassword.ResetPasswordScreen.HandleSubmit | src/presentation/screens/usuario/ResetPasswordScreen.tsx:38-42 | `updatePassword(newPassword)` is logged only when the form is valid, and `loading` is set then |
| ResetPassword.ResetPasswordScreen.UpdateSettled | src/presentation/screens/usuario/ResetPasswordScreen.tsx:43 | `loading` is false after the call |
| ForgotPassword.FromValidEmailWellFormed | src/presentation/screens/auth/ForgotPasswordScreen.tsx:29-31 | a reset request carries a normalised e-mail that matches the pattern |
| ForgotPassword.ForgotPasswordScreen.constructor | src/presentation/screens/auth/ForgotPasswordScreen.tsx:12-14 | the e-mail is empty, there is no error, the screen is not loading and no call has been made |
| ForgotPassword.ForgotPasswordScreen.ChangeEmail | src/presentation/screens/auth/ForgotPasswordScreen.tsx:65-68 | any edit stores the text and clears the error |
| ForgotPassword.ForgotPasswordScreen.HandleResetPassword | src/presentation/screens/auth/ForgotPasswordScreen.tsx:19-31 | a blank e-mail sets "El email es requerido" and makes no request; the format test is reached only for a non-blank e-mail, and its failure sets "Email inválido" and makes no request; otherwise the error is cleared, `isLoading` is set and the reset is requested with the trimmed, lower-cased e-mail |
| ForgotPassword.ForgotPasswordScreen.ResetSettled | src/presentation/screens/auth/ForgotPasswordScreen.tsx:32 | `isLoading` is false after the request |
| ForgotPassword.ResetChecksSpec | src/presentation/screens/auth/ForgotPasswordScreen.tsx:19-27 | in terms of white space and the regular expression, the screen reports "required" exactly for an all-space e-mail, "invalid" exactly for a non-blank one with no match, and makes a request exactly otherwise |
| Filter.PriceRanges | src/presentation/components/FilterModal.tsx:20-25 | no contract of its own (the constant table); specified by `PriceRangesShape` and `TablePriceCoverage` |
| Filter.Find | src/presentation/components/FilterModal.tsx:29 | no contract of its own; specified by `FindSpec`, `FindOwnLabel` and `TableLookup` |
| Filter.Truthy | src/presentation/components/FilterModal.tsx:28 | no contract of its own (`if (selectedRange)`: neither null nor ""); used by `FilterModal.ApplyDisabled` and `FilterModal.HandleApply`, whose contracts state its effect |
| Filter.InRange | src/data/repositories/PlanesRepository.ts:141-142 | no contract of its own: the closed bounds `>= min` and `<= max` with which the plans query uses a range's `min` and `max`, for a price that is any real number, fractional ones included; used by `PriceInClosedRanges` and `TablePriceCoverage` |
| Filter.PriceRangesShape | src/presentation/components/FilterModal.tsx:20-25 | the table has four non-empty ranges from 0 to 1000, each `max` equals the next `min`, and the labels are non-empty and pairwise distinct |
| Filter.FindSpec | src/presentation/components/FilterModal.tsx:29 | `find` by label answers nothing exactly when no range has the label, and otherwise the first range that has it |
| Filter.FindOwnLabel | src/presentation/components/FilterModal.tsx:29 | with distinct labels, looking up a range's own label finds that range |
| Filter.TableLookup | src/presentation/components/FilterModal.tsx:28-30 | a label of the table is non-empty (so it is truthy), and `find` on it gives the entry that carries it |
| Filter.ContiguousOrdered | src/presentation/components/FilterModal.tsx:20-25 | contiguous non-empty ranges are in increasing order |
| Filter.PriceInClosedRanges | src/presentation/components/FilterModal.tsx:20-25 | with the query's closed bounds, contiguous non-empty ranges place every price of their span, whole or fractional, in some range, and two ranges share a price only when they are neighbours and the price is their common bound |
| Filter.TablePriceCoverage | src/presentation/components/FilterModal.tsx:20-25 | every price from 0 to 1000, whole or fractional (such as 19.99 or 20.5), lies in some range of the table, and only 20, 35 and 50 lie in two |
| Filter.FilterModal.constructor | src/presentation/components/FilterModal.tsx:18 | nothing is selected and no callback has fired |
| Filter.FilterModal.Select | src/presentation/components/FilterModal.tsx:65 | selecting a range sets the selection to exactly that range's label |
| Filter.FilterModal.ApplyDisabled | src/presentation/components/FilterModal.tsx:89 | the apply button is disabled exactly when nothing is selected |
| Filter.FilterModal.HandleApply | src/presentation/components/FilterModal.tsx:27-35 | with no selection neither `onApply` nor `onClose` fires; with one, `onApply` gets the unique range with that label, then `onClose` fires; the selection is unchanged |
| Filter.FilterModal.HandleClear | src/presentation/components/FilterModal.tsx:37-41 | the selection is reset to null, then `onClear` fires, then `onClose` |
| Filter.FilterModal.Dismiss | src/presentation/components/FilterModal.tsx:56 | the close button fires `onClose` only |
| Chat.RemoveHandle | src/presentation/screens/usuario/ChatScreen.tsx:52 | no contract of its own (`clearTimeout`); specified by `RemoveHandleSpec` and `RemoveOnlyPending` |
| Chat.Lookup | src/presentation/screens/usuario/ChatScreen.tsx:20-21 | no contract of its own (a property read, `undefined` when the key is missing); specified through `ChatMessagesFor` and `IsOtherUserTyping` |
| Chat.RemoveHandleSpec | src/presentation/screens/usuario/ChatScreen.tsx:52 | `clearTimeout` leaves exactly the pending timers with another handle; a handle that already fired changes nothing |
| Chat.RemoveOnlyPending | src/presentation/screens/usuario/ChatScreen.tsx:52 | cancelling the handle of the only pending timer leaves no timer pending |
| Chat.ChatMessagesFor | src/presentation/screens/usuario/ChatScreen.tsx:20 | an unknown contract id gives the empty list, and a known one gives its stored list |
| Chat.IsOtherUserTyping | src/presentation/screens/usuario/ChatScreen.tsx:21 | an unknown contract id gives not-typing, and a known one gives its stored flag |
| Chat.SentTrimmedAppend | src/presentation/screens/usuario/ChatScreen.tsx:37-42 | appending a call that is not a blank or untrimmed message keeps every sent message non-empty and trimmed |
| Chat.ChatScreen.constructor | src/presentation/screens/usuario/ChatScreen.tsx:13-18 | the screen starts with an empty input, no pending timer, a null timer ref and no call made |
| Chat.ChatScreen.Mount | src/presentation/screens/usuario/ChatScreen.tsx:23-28 | without a user or a profile nothing is called; otherwise fetch, subscribe and mark-as-read are logged in that order and the cleanup is registered |
| Chat.ChatScreen.Unmount | src/presentation/screens/usuario/ChatScreen.tsx:30-33 | the registered cleanup logs `clearTypingStatus` for the user before unsubscribing, and the pending timer is not cancelled |
| Chat.ChatScreen.HandleTextChange | src/presentation/screens/usuario/ChatScreen.tsx:46-56 | every change stores the text; with a user present it also logs `typing=true`, cancels the previous timer and arms one due 1000 ms later, so exactly one timer is pending |
| Chat.ChatScreen.HandleSend | src/presentation/screens/usuario/ChatScreen.tsx:36-42 | empty or white-space-only input, or a missing user or profile, sends nothing; otherwise the input is cleared and the trimmed text is sent with the user's id and display name; every message ever sent is non-empty and trimmed |
| Chat.ChatScreen.AdvanceClock | src/presentation/screens/usuario/ChatScreen.tsx:53-55 | time passes without the pending timer being run: the runtime may run a due callback later than its deadline |
| Chat.ChatScreen.RunTimer | src/presentation/screens/usuario/ChatScreen.tsx:53-55 | the runtime runs the pending timer only once it is due; the callback logs `typing=false` at the current time, at least 1000 ms after the last change, and that change's `typing=true` is the last such call in the log, so no earlier, cancelled change fires |
| Chat.OverdueTimerCancelled | src/presentation/screens/usuario/ChatScreen.tsx:46-56 | a keystroke at 1000 ms, when the first timer is due but not yet run, cancels it: the log is `typing=true` at 0 and at 1000, then one `typing=false` at 2000 |

## Left out

- The stores themselves are not part of this model: `authStore`, `chatStore`, and the Supabase calls behind them. Each of their calls is only a log entry, and a store's answer is not modelled.
- Alerts, navigation, rendering and styling are left out. So are the password-visibility toggle, the chat's scroll-to-end, and the `visible` prop of the filter sheet.
- What happens between an `await` and its continuation is not modelled. A handler's first half and its `…Settled` half are separate calls, and other events may come between them.
- The chat effect's re-run when `contratacionId` or `user` change is not modelled. The screen is built with fixed values for both, so its effect mounts once and is cleaned up once.
- `Login.LoginScreen.HandleLogin`, `Register.RegisterScreen.HandleRegister`, `ResetPassword.ResetPasswordScreen.HandleSubmit` and `ForgotPassword.ForgotPasswordScreen.HandleResetPassword` can be called again while their busy flag is set. On screen, each submit button is disabled while its request is pending, so a second request cannot start. The model does not capture that guard: it can log a second request before the first has settled.
- The chat screen's handlers can be called in any phase. The model does not rule out a keystroke after unmount, which the real screen cannot receive.
- `Chat.ChatScreen.RunTimer` runs the single pending timer. The runtime's ordering among several pending timers is not modelled, because `Valid()` proves that no more than one is ever pending.
- `JsText.ToLower`: only ASCII capitals are mapped. `toLowerCase` also lower-cases other scripts. Those mappings, and case mappings that change the length, are not modelled.
- The e-mail regular expression has no `u` flag, so JavaScript runs it over UTF-16 code units. The model runs it over Unicode scalar values. For `\S`, `@` and `.` the two agree, because no white-space character is a surrogate.
