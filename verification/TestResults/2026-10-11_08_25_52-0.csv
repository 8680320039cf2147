TestResult.DisplayName,TestResult.Outcome,TestResult.Duration,TestResult.ResourceCount,RandomSeed
Polyline.ParseListPrinted (correctness),Failed,00:00:00.4984221,2083420,3
