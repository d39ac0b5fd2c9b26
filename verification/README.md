# Pregnancy vaccination tracker: gestational dating and vaccine-window engine

This project is a Dafny model of the decision logic in a pregnancy vaccination tracker. It covers:

- **`Pregnancy`** (lib/utils/pregnancy.ts). From a due date and the current instant it derives:
  - the gestational week, clamped to [1, 42];
  - the trimester;
  - the days left until the due date;
  - the 46-day postpartum window.

  It decides whether a week falls in a vaccine's free-text recommended window. The window texts use a small vocabulary: `Qualquer`, `NÃO`, `A-B`, `partir de N`. It computes a next-dose date from a free-text interval (`A-B meses`, `N meses`). It also builds the alert messages and the trimester and week labels, and applies the `"-"` guards of the date formatter.
- **`Calendario`** (app/calendario/page.tsx). Gives each catalogue vaccine a status badge: completed, then contraindicated, then ideal window, then pending, in that order of precedence. It also splits the catalogue into the groups for trimester 1, 2 and 3 and `any`.
- **`Perfil`** (app/perfil/page.tsx). Models the profile form's allergy list as a class whose fields are the form state. Adding an allergy appends the trimmed input if it is new. Removing one drops every entry with that value.
- **`Types`** holds the catalogue and record shapes of lib/types/index.ts that these rules read.
- **`Text`** writes out the JavaScript pieces the code relies on as explicit scans: `includes`, `trim`, `filter`, `parseInt` of a digit run, the decimal text of a number in a template literal, and the leftmost match of each regular expression.

How values are represented:

- Instants are integer milliseconds, the value `Date.getTime()` returns.
- The current instant is a parameter.
- Division follows the source's `Math.ceil` and `Math.floor`. The divisor is always positive, so floor is Dafny's `/`, and ceil is the negated floor of the negated value.

Each regular expression is a predicate meaning "matches at position i", plus a search for the leftmost such position. A match always spans whole digit runs, for two reasons. First, `\d+` is greedy. Second, whatever the pattern requires after a group (`-`, ` meses`, or the end of the pattern) either cannot be a digit or adds no constraint, so backtracking into a shorter run cannot help.

The comment at lib/utils/pregnancy.ts:103 lists `0-1-6 meses` among the intervals the code parses, so one might expect that interval to add its first number, 0 months. The pattern `(\d+)-(\d+) meses` is not anchored, however. At index 0 its match fails because `0-1` is followed by `-6`. Its leftmost match is therefore `1-6 meses`, and the code adds one month (`Pregnancy.NextDoseThreeDoseExample`).

## Model

| member | source | states |
|---|---|---|
| Pregnancy.DaysUntilDueDate | lib/utils/pregnancy.ts:36-41 | The result is the ceiling of the millisecond difference in days: `MsPerDay*(days-1) < due-now <= MsPerDay*days`. So it is 0 from the due instant until a whole day after it, and negative only from then on. |
| Pregnancy.CurrentWeek | lib/utils/pregnancy.ts:8-22 | The week is always in [1, 42], however far away the due date is. |
| Pregnancy.WeekFromDaysUntilDue | lib/utils/pregnancy.ts:14-21 | At the same instant, the week equals 40 minus floor(daysUntilDueDate / 7), clamped to [1, 42]. |
| Pregnancy.WeekAtDueDate | lib/utils/pregnancy.ts:14-19 | At the due date there are 0 days left and the week is 40. |
| Pregnancy.WeekStepsDown | lib/utils/pregnancy.ts:14-19 | Moving the due date 7 days later adds exactly 7 days to go and lowers the unclamped week by one. |
| Pregnancy.WeekBands | lib/utils/pregnancy.ts:14-21 | Week w is shown exactly when the days to go lie in [7(40-w), 7(41-w)). Week 1 absorbs every longer wait and week 42 every day more than 7 days overdue. |
| Pregnancy.WeekMonotoneInDueDate | lib/utils/pregnancy.ts:14-21 | A later due date gives at least as many days to go and never a later week. |
| Pregnancy.WeekMonotoneInTime | lib/utils/pregnancy.ts:14-21 | As `now` advances, the week never goes back. |
| Pregnancy.TrimesterOf | lib/utils/pregnancy.ts:27-31 | Defined for every integer and always 1, 2 or 3: 1 exactly for weeks ≤ 13, 2 exactly for 14..27, 3 exactly for ≥ 28. |
| Pregnancy.TrimesterMonotone | lib/utils/pregnancy.ts:27-31 | The trimester never decreases as the week grows. |
| Pregnancy.IsPostpartum | lib/utils/pregnancy.ts:46-53 | True exactly when `now` lies in the 46 days that start at the due date: `0 <= now-due < 46*MsPerDay`. |
| Pregnancy.PostpartumByDaysUntilDue | lib/utils/pregnancy.ts:36-53 | The same window in daysUntilDueDate terms: between -45 and 0 days to go. |
| Pregnancy.PostpartumEdges | lib/utils/pregnancy.ts:49-52 | False one millisecond before the due date (elapsed day -1) and on elapsed day 46. True at the due date and on the last millisecond of day 45. |
| Pregnancy.FindRange | lib/utils/pregnancy.ts:68 | Finds the leftmost `(\d+)-(\d+)` match, or reports that there is none anywhere. |
| Pregnancy.FindFrom | lib/utils/pregnancy.ts:75 | Finds the leftmost `partir de (\d+)` match, or reports that there is none anywhere. |
| Pregnancy.IsInIdealWindow | lib/utils/pregnancy.ts:58-82 | Six cases, checked in this order. (1) An absent or empty text gives false. (2) A text containing `Qualquer` gives true, even if it also contains `NÃO`. (3) Otherwise a text containing `NÃO` gives false. (4) Otherwise the leftmost `A-B` decides `A <= week <= B`, before any `partir de`. (5) Otherwise the leftmost `partir de N` decides `week >= N`. (6) Otherwise false. |
| Pregnancy.RangeWindowExample | lib/utils/pregnancy.ts:68-72 | Week 30 is in `28-36 semanas`; week 27 is not. |
| Pregnancy.FromWindowExample | lib/utils/pregnancy.ts:75-79 | Week 20 is in `A partir de 18ª semana`; week 10 is not. |
| Pregnancy.KeywordWindowExample | lib/utils/pregnancy.ts:62-65 | `Qualquer momento` admits week 5; an absent text admits nothing. |
| Pregnancy.AddMonths | lib/utils/pregnancy.ts:107-108 | The month count carries into the year (12·year + month grows by exactly n). The month stays in 0..11 and the day is kept. |
| Pregnancy.AddNoMonths | lib/utils/pregnancy.ts:107-108 | Adding 0 months leaves a well-formed date unchanged. |
| Pregnancy.FindMonthRange | lib/utils/pregnancy.ts:104 | Finds the leftmost `(\d+)-(\d+) meses` match, or reports that there is none. |
| Pregnancy.FindMonths | lib/utils/pregnancy.ts:112 | Finds the leftmost `(\d+) meses` match, or reports that there is none. |
| Pregnancy.MonthRangeHasMonths | lib/utils/pregnancy.ts:104-112 | Every `A-B meses` match contains an `N meses` match at its second group. |
| Pregnancy.NextDoseDate | lib/utils/pregnancy.ts:97-121 | The result is none exactly when no digit run is immediately followed by ` meses`. Otherwise the leftmost `A-B meses` adds A months; failing that, the leftmost `N meses` adds N months. |
| Pregnancy.NextDoseRangeExample | lib/utils/pregnancy.ts:104-110 | `6-12 meses` adds 6 months. |
| Pregnancy.NextDoseThreeDoseExample | lib/utils/pregnancy.ts:103-110 | `0-1-6 meses` adds 1 month, not 0. |
| Pregnancy.NextDoseUnknownExample | lib/utils/pregnancy.ts:120 | `unknown` gives no next dose. |
| Pregnancy.AlertNamesVaccine | lib/utils/pregnancy.ts:126-145 | Every alert message contains the vaccine name. |
| Pregnancy.AlertWeekOnlyInIdealWindow | lib/utils/pregnancy.ts:131-144 | The `ideal_window` message contains the week label. Every other message is the same whatever the week. |
| Pregnancy.AlertKindsDistinct | lib/utils/pregnancy.ts:131-144 | A kind with a template of its own never produces the same message as another kind. All other kinds share one fallback reminder. |
| Pregnancy.AlertMessage | lib/utils/pregnancy.ts:126-145 | Each message opens with the symbol of its kind (the reminder with `L`) and is longer than the vaccine name. AlertNamesVaccine, AlertWeekOnlyInIdealWindow and AlertKindsDistinct state the rest. |
| Pregnancy.TrimesterLabel | lib/utils/pregnancy.ts:150-157 | The label of trimester t is the decimal digit of t followed by `º Trimestre`. |
| Pregnancy.WeekLabel | lib/utils/pregnancy.ts:162-164 | The label is `Semana ` followed by text that opens with a digit exactly when the week is not negative. |
| Pregnancy.WeekLabelFaithful | lib/utils/pregnancy.ts:162-164 | Every week label starts with `Semana `. For a week of 0 or more, the rest parses back to the week. Distinct weeks get distinct labels. |
| Pregnancy.FormatDateBR | lib/utils/pregnancy.ts:87-92 | An undefined argument, an empty string or an invalid date gives `"-"`. Any other date goes to the locale formatter. |
| Calendario.HasRecord | app/calendario/page.tsx:36 | True exactly when some record's `vaccine_id` equals the id. |
| Calendario.VaccineStatus | app/calendario/page.tsx:35-53 | Completed exactly when a record exists. Otherwise contraindicated exactly when the vaccine is contraindicated. Otherwise ideal exactly when in the window. Otherwise pending. The badge is always one of the four fixed (status, label, colour) triples. |
| Calendario.BadgeFollowsStatus | app/calendario/page.tsx:39-52 | Two badges with the same status are identical, so label and colour follow from the status. |
| Calendario.Group | app/calendario/page.tsx:28-33 | A group holds the catalogue entries that pass its equality test, in catalogue order. Each passing entry appears as many times as in the catalogue, and each failing one not at all. |
| Calendario.GroupByTrimester | app/calendario/page.tsx:28-33 | Each of the four groups holds every copy of every catalogue entry whose trimester is exactly 1, 2, 3 or null respectively, and nothing else. |
| Calendario.GroupsPartitionGroupedVaccines | app/calendario/page.tsx:28-33 | Each group keeps catalogue order. A vaccine whose trimester is 1, 2, 3 or null is in exactly one group, its own. A vaccine whose trimester is missing or another number is in none. |
| Calendario.GroupSizes | app/calendario/page.tsx:28-33 | The group sizes add up to the number of catalogue entries whose trimester is 1, 2, 3 or null. |
| Calendario.GroupsCoverCatalogue | app/calendario/page.tsx:28-33 | The groups together are as large as the catalogue exactly when every vaccine has a trimester of 1, 2, 3 or null. |
| Perfil.AcceptsAllergy | app/perfil/page.tsx:76 | An add is accepted exactly when the input has a character that is not white space and its trimmed text is not yet listed. |
| Perfil.AllergiesAfterAdd | app/perfil/page.tsx:76-79 | The old list stays as a prefix, with at most one entry added. The values listed afterwards are the old ones plus the trimmed input when that is not blank. |
| Perfil.AllergiesAfterRemove | app/perfil/page.tsx:88 | The removed value no longer occurs, and every other value keeps its number of copies. |
| Perfil.AddAppendsTrimmed | app/perfil/page.tsx:75-83 | An accepted input is appended after all earlier entries, trimmed. A blank input or one already listed changes nothing. Any change adds the new trimmed entry. |
| Perfil.AddKeepsNoDuplicates | app/perfil/page.tsx:76-79 | A list without duplicates has none after adding. |
| Perfil.RemoveDropsEveryCopy | app/perfil/page.tsx:85-90 | Removal sets the value's count to zero and leaves every other count alone. The survivors keep their order. |
| Perfil.RemoveKeepsNoDuplicates | app/perfil/page.tsx:85-90 | A list without duplicates has none after removal. |
| Perfil.RemoveUndoesAdd | app/perfil/page.tsx:75-90 | Removing the entry that an accepted add has just appended restores the list. |
| Perfil.ProfileForm.constructor | app/perfil/page.tsx:15-23 | The form starts with every field empty and no allergies. |
| Perfil.ProfileForm.AddAllergy | app/perfil/page.tsx:75-83 | The new list is the add of the old list and input. The input is cleared exactly when the add is accepted. The no-duplicates property is kept. The other fields are unchanged. |
| Perfil.ProfileForm.RemoveAllergy | app/perfil/page.tsx:85-90 | The new list is the old one filtered. The value is gone and every other value keeps its membership. The input and the other fields are unchanged. |
| Text.Includes | lib/utils/pregnancy.ts:65-66 | `includes` is true exactly when the substring occurs at some index. |
| Text.FirstWhere | lib/utils/pregnancy.ts:68 | Returns the leftmost position in a range that satisfies the test, or reports that no position in the range does. |
| Text.RunEnd | lib/utils/pregnancy.ts:68 | A greedy `\d+` stops at the first non-digit or the end of the text, and takes only digits. |
| Text.ParseNatToString | lib/utils/pregnancy.ts:163 | `parseInt` of the decimal text of a number gives the number back. |
| Text.IntToStringInjective | lib/utils/pregnancy.ts:163 | Distinct integers have distinct decimal texts. |
| Text.Trim | app/perfil/page.tsx:76 | `trim` gives an infix that neither starts nor ends with white space. Everything cut off is white space. The result is empty exactly when the input is all white space. |
| Text.Filter | app/perfil/page.tsx:88 | `filter` keeps the elements that pass, in their original order, each as many times as it occurs in the input, and drops every element that fails. |

## Left out

- Reading the clock. `now` is a parameter of every dating function.
- Parsing dates. `new Date(string)` parsing, time zones, UTC and daylight-saving time are not modelled. Dates enter as integer milliseconds or as (year, month, day).
- Pregnancy.AddMonths: does not model JavaScript's day-of-month overflow. `setMonth` on 31 January moves into March; the model keeps the day as it is.
- Pregnancy.FormatDateBR: the `Intl.DateTimeFormat('pt-BR')` output is a parameter. Only the `"-"` guards are modelled. The date a string parses to is supplied with the string.
- Floating point. Weeks, days and parsed numbers are unbounded integers. Non-integer weeks, `NaN`, and rounding in `diffTime / 86400000` are not modelled. Nor is the precision loss of `parseInt` on digit runs longer than 15 digits.
- Pregnancy.IsInIdealWindow: a `recommended_weeks` that is not a string is outside the model. Only `undefined` and strings are modelled.
- Backend calls. Authentication, the profile upsert, vaccine lookup and creation, record insert and delete, alert updates and photo upload are all network I/O over a hosted backend. Their code is not part of this model.
- The dashboard counts in lib/context/AppProvider.tsx are not part of this model.
- Rendering. JSX, styling, navigation and timers are not modelled. Nor is the PDF export in app/vacinas/page.tsx.
- Perfil.ProfileForm.AddAllergy: React's asynchronous state batching is not modelled. Each handler reads and writes the form state at once, as one render's closure does.
