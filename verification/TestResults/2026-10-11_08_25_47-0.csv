TestResult.DisplayName,TestResult.Outcome,TestResult.Duration,TestResult.ResourceCount,RandomSeed
Polyline.ParseListPrinted (correctness),Passed,00:00:00.2191679,379441,2
