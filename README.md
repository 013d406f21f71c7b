# Todo request handler — a Dafny model

A serverless (AWS Lambda behind API Gateway) todo list. One handler gets a
request path and routes on it:

- `/list` scans the DynamoDB table `todos` and answers the stored names, one per line.
- `/add/<item>` puts the item.
- `/complete/<item>` deletes the item, because completing an item means deleting it.
- Any other verb only echoes the path back.

The item is every path segment after the verb, joined again with `/`, so an
item name may itself contain `/`. The answer is a status code (200, or 500
when the store reports an error), a `{"message": ...}` body and two fixed
headers.

The model has four parts:

- `Strings` (`strings.dfy`): Go's `strings.Split` and `strings.Join` for a
  one-character separator, with their round-trip laws.
- `TodoStore` (`store.dfy`): the table as a class `TodoTable` that holds a
  set of names.
  - Its methods `List`, `Add` and `Complete` each make one round trip to the
    store.
  - Each round trip is recorded in the ghost log `calls`.
  - Whether the round trip fails, and with which error text, comes in as the
    parameter `fault`. The network is out of the program's hands.
  - `List` collects the names in whatever order the scan chooses. The model
    picks that order nondeterministically.
- `TodoHandler` (`handler.dfy`): the routing, in two forms.
  - `Dispatch` and `Handle` are pure functions that specify the routing.
  - `Handler` is an imperative method over a `TodoTable`. It does what the
    code does: set defaults, split, join, then overwrite the message and
    status in the branches.
  - Its contract says three things. The log grows by exactly the round trip
    that `CallsFor(path)` names. Some order of the stored names exists. For
    that order, the result and the new store contents are those that
    `Handle` computes.
- `TodoProperties` (`properties.dfy`): the promised behaviour, proved about
  `Handle`.

A path without any `/` (the empty path, say) splits into one segment. The
code then indexes the second segment, which is out of range, so Go panics.
The model gives this case its own outcome, `Panicked`. It is not treated as
an unrecognised verb. A plain description of the handler would call it a
fall-through that echoes the path. The model follows the code instead.

## Model

| member | source | states |
|---|---|---|
| Strings.Split | todo/main.go:35 | a split always has at least one segment, one more than the number of separators, and no segment holds the separator |
| Strings.SplitHasTwoPieces | todo/main.go:35-43 | a split has a second segment exactly when the path contains the separator |
| Strings.JoinSplit | todo/main.go:35-38 | joining the segments of a split rebuilds the string |
| Strings.SplitJoin | todo/main.go:50 | splitting a join of separator-free parts gives back exactly those parts |
| Strings.JoinEndsWithLast | todo/main.go:50 | a join of two or more parts ends with the last part, and no separator follows it |
| TodoStore.ListingExists | todo/main.go:105-114 | every set of stored names has some scan order that lists it |
| TodoStore.ListingSize | todo/main.go:110-115 | a listing has exactly one entry per stored name; the empty store lists nothing |
| TodoStore.ListedOnce | todo/main.go:23-24 | since the name is the table key, a stored name occurs exactly once in a listing |
| TodoStore.TodoTable.List | todo/main.go:96-116 | one Scan round trip; on failure, the error text; on success, each stored name exactly once and nothing else; the names are not changed |
| TodoStore.TodoTable.Add | todo/main.go:119-137 | one PutItem round trip; the error is returned as reported; on success, the name is added and nothing else changes |
| TodoStore.TodoTable.Complete | todo/main.go:139-159 | one DeleteItem round trip; the error is returned as reported; on success, the name is removed (an absent name is no error) and nothing else changes |
| TodoHandler.Handler | todo/main.go:27-93 | makes exactly the round trip the path selects, and its reply and the new store contents equal Handle's for some scan order of the old names |
| TodoProperties.IndexingSafety | todo/main.go:35-43 | a split always has a segment, so the guard never skips; the handler panics exactly when the path has no '/' |
| TodoProperties.SegmentsOfVerbAndItem | todo/main.go:35-43 | the verb is the text between the first and second '/', and the item is everything after the second '/' |
| TodoProperties.SegmentsOfVerbOnly | todo/main.go:36-39 | with no second '/', the segments are the head and the verb, and the item is empty |
| TodoProperties.UnrecognisedVerb | todo/main.go:30-71 | a verb other than list/add/complete: no round trip, message is the path, status 200, store unchanged |
| TodoProperties.SuccessfulAdd | todo/main.go:52-60 | a successful add: exactly a Put of the item, "Added", 200, the item is then stored, and no other name changes |
| TodoProperties.SuccessfulComplete | todo/main.go:62-70 | a successful complete: exactly a Delete of the item, "Completed", 200, the item is then absent, and no other name changes |
| TodoProperties.SuccessfulList | todo/main.go:44-51 | a successful list: exactly a Scan, the names joined by newlines, 200, store unchanged; "" for an empty store, and a text that splits back into the listing when no name holds a newline |
| TodoProperties.StoreErrors | todo/main.go:30-71 | status 500 exactly when a store round trip was made and failed, with the error text as the message and the store unchanged; otherwise status 200 |
| TodoProperties.ResponseShape | todo/main.go:82-90 | every reply has exactly the headers Content-Type: application/json and X-MyCompany-Func-Reply: hello-handler, is not base64-encoded, and has status 200 or 500 |
| TodoProperties.AtMostOneCall | todo/main.go:43-71 | a request makes at most one store round trip, and exactly one when the verb is list, add or complete |
| TodoProperties.AddPath | todo/main.go:35-54 | `/add/x` adds the item x, whatever x holds |
| TodoProperties.CompletePath | todo/main.go:35-64 | `/complete/x` completes the item x |
| TodoProperties.ListPath | todo/main.go:35-45 | `/list` lists |
| TodoProperties.NestedIdentifier | todo/main.go:35-39 | `/add/groceries/milk` adds the name `groceries/milk` |
| TodoProperties.AddWithoutItem | todo/main.go:36-39 | `/add` adds the empty name |
| TodoProperties.BogusEchoes | todo/main.go:30-71 | `/bogus` answers status 200 with message `/bogus` and leaves the store alone |
| TodoProperties.ListEmptyStore | todo/main.go:44-51 | `/list` on the empty store answers status 200 with the empty message |
| TodoProperties.AddThenListOnce | todo/main.go:96-137 | after a successful `/add/x`, a successful `/list` shows x exactly once |
| TodoProperties.AddTwice | todo/main.go:126-136 | adding the same item twice leaves the same store as adding it once |
| TodoProperties.CompleteAbsent | todo/main.go:139-158 | completing an absent item succeeds with "Completed" and changes nothing |
| TodoProperties.AddThenComplete | todo/main.go:119-158 | after `/add/x` then `/complete/x`, the store is the old one without x, and no listing shows x |

## Left out

- AWS sessions, clients, and `log.Fatal` on a session failure (todo/main.go:97-101, 120-124, 141-145). These are SDK I/O. The one remaining failure is the round trip's error, which comes in as the parameter `fault`.
- `lambda.Start` and `main` (todo/main.go:161-163): process glue.
- The DynamoDB attribute encoding of a row and the `*row[todoKey].S` dereference (todo/main.go:111-114, 127-131, 149-154): these are a foreign library's wire format. A row is its name string. The table name `todos` and the key `name` only matter inside that encoding.
- JSON encoding of the body (todo/main.go:74-80): the body is `MessageEnvelope(message)`. The escaping rules of `json.Marshal` and `json.HTMLEscape` are not modelled.
- The status-404 return when marshalling fails (todo/main.go:77-79): this is a library failure. It cannot happen for a map from a string to a string.
- `context.Context` and the HTTP method: the code never inspects them.
- An error value is modelled as its text (`fmt.Sprint(err)`).
- TodoStore.TodoTable.Add: a failed round trip is assumed to leave the table unchanged. A real PutItem that times out may still have been applied.
- TodoStore.TodoTable.Complete: a failed round trip is assumed to leave the table unchanged. The same caveat as for Add applies.
- TodoStore.TodoTable.List: the model scans every row. A real DynamoDB Scan returns at most one page (1 MB), and the code does not follow `LastEvaluatedKey`. On a large table the real answer would be only part of the stored names.
- Concurrency between invocations is not modelled. Each invocation is one sequential step against the store.
